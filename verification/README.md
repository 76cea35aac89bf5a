# Verified models of sese

This project models the hardest parts of the sese C++ library in Dafny 4.11 and proves what
they promise. `dafny verify dfyconfig.toml` checks all of it.

## What is modelled

**Lock-free queue** (`Linearizability.dfy`, `LinkedQueue.dfy`, `LinkedQueueProof.dfy`,
`LinkedQueueProgress.dfy`, `LinkedQueueCalls.dfy`). Every thread of an arbitrary set runs `push` and
`pop` one atomic load or compare-exchange at a time; `LinkedQueue.Step` is one such access, a schedule
picks the thread and what it calls, and a weak compare-exchange may fail for no reason. `Linearizable`
says that each call takes effect at one instant between its call and its return, and that the effects
in that order are those of a first-in first-out queue; a pop that returns false had an instant inside
the call at which the queue was empty. Progress is proved too: only boundedly many steps go by before
some call returns. The calls of a run are those its schedule asked for, and a thread left alone gets
the answers of a queue to any calls it makes.

**Two-lock swap queue** (`BufferedQueue.dfy`, `BufferedQueueProgress.dfy`, `BufferedQueueCalls.dfy`).
The same treatment for the queue that swaps its two halves under a read and a write mutex, against a
pair of halves that leaves no choice of answers, with freedom from deadlock and a bound on the steps,
waiting apart, before a call returns.

**Asynchronous logger** (`AsyncLogger.dfy`). The module `LogPipeline` says what bytes are where
while producers log and the one consumer goes through collecting, discarding, dumping and
recycling; the class `AsyncLogger.AsyncLogger` does it with buffers on a heap, where each buffer
has exactly one holder, and refines that description step by step. The steps are the critical
sections of `log` and the stages of `loop`. The stages outside the lock touch nothing a `log` does,
so one that runs while records come in gives what it gives before or after them
(`LogPipeline.OutsideTheLock`), and taking it as one step loses no interleaving.

**JSON** (`JsonValue.dfy`, `JsonParser.dfy`, `JsonPrinter.dfy`, `JsonRoundTrip.dfy`, `JsonKeys.dfy`,
`JsonText.dfy`). The tokenizer, the parser on a token queue and a stack of containers under
construction, and the printer on a frame stack and a separate stack of map iterators are loops that
change their stacks in place.
Each is proved against the obvious recursive definition (`Scan`, `Finish`, `Render`). Pointers into
the tree being built are paths from its root. A key that is already there keeps its first container
but takes its last leaf, as `setRef` and `set` do. References to just-popped stack entries are
read as copies. `JsonKeys` follows the tokenizer through the text of a tree with keys that cannot
be read back, however far they throw it off, to show that such a tree never comes back. `JsonText`
is about texts that no printer wrote: white space, keys and words without quotes, missing ends.

**Time wheel** (`TimeWheel.dfy`). `Timers` is a plain set of deadlines: which events a check fires,
what becomes of each, and what follows for every run. `TimeWheel.TimeWheel` is the wheel with its
ring of sixty slots and refines it. The clock never goes back, and callbacks do not call the wheel.

**Chained byte buffer** (`AbstractByteBuffer.dfy`). Linked nodes with memory of their own, on the
heap, refine the bytes written so far and one reading cursor (`ByteStreams`).

**SHA-1 and SHA-256** (`Words.dfy`, `Sha1Spec.dfy`, `Sha1.dfy`, `Sha256Spec.dfy`, `Sha256.dfy`). The
two `Spec` modules are FIPS 180-4. SHA-1 works on a rolling window of sixteen words with renamed
registers; SHA-256 on words kept as four bytes. Both are modelled on little-endian and big-endian
hosts: SHA-1 gives the digest on either, SHA-256 only on the former. The input stream comes up short
only at its end. Message lengths are taken modulo 2^64 bits, as the code's counter is; the standard has
no longer messages.

**UTF-8 strings** (`Utf8.dfy`, `SString.dfy`). One character to and from its bytes against the table
of section 3 of RFC 3629, then strings of them: building, reading, reversing and cutting.

**Message area** (`Ipc.dfy`). `read` filters length-prefixed frames and compacts the rest in place
over its own source.

**Prefix function** (`PrefixFunction.dfy`). The table of longest borders.

`Common.dfy` holds what several of these share.

## Where the code and its own words differ

- `TimeWheel::check` fires an event whose target is the very second of the check only if sixty
  seconds or more have passed since the last one (`Timers.Due`). Below sixty seconds callbacks run
  in the order of their targets (`Timers.InOrderWithinATurn`); from there on they need not
  (`Timers.OrderNeedsLessThanATurn`).
- JSON strings and keys are printed as they are, with no escapes added. A list or dictionary comes
  back exactly when all its keys and strings are clean: every quote in them follows a backslash
  that is not itself escaped, and none ends in such a backslash (`JsonKeys.RoundTripExactly`).
- Commas are optional before any member or item (`JsonRoundTrip.CommasAreOptional`), a list may end with
  the input (`JsonRoundTrip.ClosedByTheEnd`), and a key without quotes loses its first and last
  character (`JsonText.BareKeyIsClipped`).
- Writing UTF-8 stops at 0x7ffff, short of the 0x10ffff of the standard
  (`Utf8Char.EncodesTheStandard`), though reading does not (`Utf8Char.ReadsTheStandard`); both take
  surrogates for characters, and a zero character ends what can be read
  (`Utf8String.ComesBackWhole`).
- `SHA256Util::encode` clears too little of the last block when 45 to 47 bytes are left over
  (`Sha256.ShortBlockIsPadded`, `Sha256.LeftoversSpoilPadding`), and its clearing count is negative
  for 48 to 55, which is undefined; there the model makes no claim.
- `SHA256Util::encode` converts the mark behind a message to little endian before it keeps the lowest
  byte, which on a big-endian host leaves zero: every message is then hashed without its mark
  (`Sha256.AbsorbedIsPadded`, `Sha256.EmptyMessageHasNoMark`). The model reads the four-byte
  conversion there as the swap that `Endian.h` spells out; its result type names a member `t` of
  `std::enable_if`, where the standard has `type`.
- `IPCChannel::write` lays no mark of the end, so what it writes can be read exactly when the bytes
  behind it happen to be zero (`Ipc.WrittenIsReadable`); four calls lead to an area where they are
  not (`Ipc.StaleBytes`). Nor does `create`: the clearing meant for the first message hits half of
  the stored size, and the mark is there only because new memory is zero. On a 64-bit big-endian
  machine this leaves a channel of less than 4 GiB with a size of zero, and no message fits
  (`Ipc.NothingFits`). The space check counts four bytes past the size (`Ipc.StaysInside`).
- The logger loses the rest of a record longer than a buffer, and all but the first two buffers of a
  batch of more than 25; it delivers everything exactly when neither happens
  (`LogPipeline.DeliversIffGuarded`), and surely as long as records fit and fewer than 13 * 4096 bytes
  come in between two collections (`LogPipeline.LightLoadIsDelivered`).

## Model

| member | source | states |
|---|---|---|
| LinkedQueueProof.RunsAreLinearizable | sese/concurrent/LinkedQueue.h:64-107 | every run of any number of threads, under any schedule and any spurious failures, is linearizable to an unbounded FIFO queue |
| LinkedQueueProof.ReachableShape | sese/concurrent/LinkedQueue.h:46-107 | in every reachable state head reaches tail, tail is the last node or the one before it, and no thread ever follows a null pointer |
| LinkedQueueProof.NextIsWrittenOnce | sese/concurrent/LinkedQueue.h:69-82 | over any step of any reachable state values never change and a next pointer goes from null to a node at most once |
| LinkedQueueProof.ShapeKept | sese/concurrent/LinkedQueue.h:64-107 | one step keeps the shape and changes the queue contents exactly by the effect that step stands for, and by nothing otherwise |
| LinkedQueueProof.SafeWrite | sese/concurrent/LinkedQueue.h:74-99 | every successful write of a link, of head or of tail, is one of the four that keep the chain intact |
| LinkedQueueProof.NullNextMeansEmpty | sese/concurrent/LinkedQueue.h:88-94 | a popper that reads a null next behind a head that is also the tail does so at an instant when the queue is empty |
| LinkedQueueProof.ExplainedKept | sese/concurrent/LinkedQueue.h:64-107 | whatever step is taken, linearization points for the run so far extend to points for the longer run, placing the empty pop inside its call |
| LinkedQueueProof.InvKept | sese/concurrent/LinkedQueue.h:64-107 | the invariant about chain, ownership of unlinked nodes and the locals of every thread survives every step |
| LinkedQueueProgress.LockFree | sese/concurrent/LinkedQueue.h:64-107 | lock-freedom: from any reachable state on, under any schedule, at most 12n² + 29n + 6 steps of n threads are made without some call returning, and six more for each compare-exchange that fails for no reason |
| LinkedQueueProgress.StepCosts | sese/concurrent/LinkedQueue.h:64-107 | every step that returns from no call uses up one of the steps still to be made: a loop is repeated only because another step moved a next, tail or head |
| LinkedQueueProgress.ChangeIsPaid | sese/concurrent/LinkedQueue.h:74-99 | every successful compare-exchange is one of the changes its call or a lagging tail still had coming |
| Linearizability.FirstInFirstOut | sese/concurrent/LinkedQueue.h:32-34 | in any sequence of effects a FIFO queue admits, the values pushed are those popped, in order, and then those still held |
| Linearizability.ReplayWithEmpty | sese/concurrent/LinkedQueue.h:92-95 | an empty pop may be put at any instant at which the queue is empty without changing what the other effects do |
| Linearizability.TrackWithEmpty | sese/concurrent/LinkedQueue.h:92-95 | a point put there lies inside the call of the thread that returns false |
| Linearizability.OutcomesAreEarned | sese/concurrent/LinkedQueue.h:32-34 | in any admitted sequence a pop gets the oldest value pushed and not yet popped and fails only when there is none; with a limit a push is refused only from it on and taken only below twice of it |
| Linearizability.ReturnsAreExplained | sese/concurrent/LinkedQueue.h:64-107 | every return in an explained trace follows its own call, and between the two the call took effect with just that outcome |
| LinkedQueueCalls.CallsAreThoseAsked | sese/concurrent/LinkedQueue.h:64-107 | in every run each label is of the thread that was chosen, and each call is the one it was asked for |
| LinkedQueueCalls.AloneItIsAQueue | sese/concurrent/LinkedQueue.h:64-107 | any list of calls made by one thread alone, one after the other, gets exactly the answers of a queue |
| LinkedQueueCalls.PushedThenPopped | sese/concurrent/LinkedQueue.h:64-107 | any values pushed and then popped come back in their order, and the next pop finds nothing |
| BufferedQueue.RunsAreLinearizable | sese/container/BufferedQueue.h:33-66 | every run of any producers and consumers is linearizable to a FIFO queue whose push may fail only when a write limit's worth is held, and whose pop fails only at an instant when both halves are empty |
| BufferedQueue.RunsAreLinearizableToHalves | sese/container/BufferedQueue.h:33-66 | every run is linearizable to two halves with determined answers: a push is refused exactly when the write half alone holds the limit, a pop takes from the read half and exchanges the halves first if that is empty |
| BufferedQueue.HalvesAreAQueue | sese/container/BufferedQueue.h:33-66 | those two halves are a FIFO queue of at most twice the limit that refuses only from the limit on |
| BufferedQueue.HalvesKept | sese/container/BufferedQueue.h:33-66 | each step changes the two halves by the one answer it stands for, and by nothing otherwise |
| BufferedQueueCalls.CallsAreThoseAsked | sese/container/BufferedQueue.h:33-61 | in every run each label is of the thread that was chosen, and each call is the one it was asked for |
| BufferedQueueCalls.AloneItIsTwoHalves | sese/container/BufferedQueue.h:33-61 | any list of calls made by one thread alone gets exactly the answers of the two halves |
| BufferedQueueCalls.TakesTheLimitAgain | sese/container/BufferedQueue.h:33-61 | for every limit: so many pushes are taken and the next refused; after one pop so many more are taken before the next is refused |
| BufferedQueue.ReachableStates | sese/container/BufferedQueue.h:33-66 | at most twice the write limit is ever held, each mutex has one holder, and front is never taken of an empty half |
| BufferedQueue.ContentsKept | sese/container/BufferedQueue.h:33-66 | each step changes the read half followed by the write half only by the effect it stands for; a swap changes nothing |
| BufferedQueueProgress.NoDeadlock | sese/container/BufferedQueue.h:33-61 | in every reachable state in which a call is in progress some call in progress can go on, though a pop asks for the write mutex while it holds the read mutex |
| BufferedQueueProgress.SomeCallReturns | sese/container/BufferedQueue.h:33-61 | from any reachable state on, under any schedule, n threads make at most 10n steps that are no waiting before some call returns |
| BufferedQueueProgress.ReturnIsReachable | sese/container/BufferedQueue.h:33-61 | from any reachable state with a call in progress a schedule of at most 10n + 1 steps, with no new call, ends in a return |
| LogPipeline.RunAccounts | sese/log/AsyncLogger.cpp:41-60 | in every interleaving of log calls with consumer stages as many bytes are accepted as are dumped, in the batch, ready, current or lost together; with nothing lost they are the same bytes in the same order |
| LogPipeline.DeliversIffGuarded | sese/log/AsyncLogger.cpp:41-145 | the pipeline holds exactly the accepted records in order if and only if every record fits a buffer and no batch of more than 25 buffers meets the cut |
| LogPipeline.NothingReordered | sese/log/AsyncLogger.cpp:41-145 | in every interleaving, whatever is lost, what is left is the accepted bytes with some left out: nothing is repeated, made up or out of order |
| LogPipeline.PackedEver | sese/log/AsyncLogger.cpp:45-57 | in every run two neighbouring buffers, ready, current or in a batch, hold at least 4096 bytes together |
| LogPipeline.LightLoadIsDelivered | sese/log/AsyncLogger.cpp:41-145 | with every record within 4096 bytes and fewer than 13 * 4096 bytes accepted between any two collections everything is delivered |
| LogPipeline.SinceIsAccepted | sese/log/AsyncLogger.cpp:90-103 | the bytes counted since a collection are those accepted since, and a collection starts anew |
| LogPipeline.LargeBatchIsCut | sese/log/AsyncLogger.cpp:106-111 | of 25 or more buffer-sized records that meet one iteration of the consumer one is left |
| LogPipeline.LongRecordIsCut | sese/log/AsyncLogger.cpp:48-57 | of a record longer than a buffer exactly the first 4096 bytes are left |
| LogPipeline.OutsideTheLock | sese/log/AsyncLogger.cpp:105-145 | any work of the consumer outside the lock commutes with any calls of log made meanwhile |
| LogPipeline.StagesCommute | sese/log/AsyncLogger.cpp:105-145 | so does each stage as it is |
| LogPipeline.StepAccounts | sese/log/AsyncLogger.cpp:41-145 | the same for one step, with what exactly that step can lose |
| AsyncLogger.AsyncLogger.constructor | sese/log/AsyncLogger.cpp:21-31 | the desk starts with four distinct live buffers, each with one holder, and an empty pipeline |
| AsyncLogger.AsyncLogger.Log | sese/log/AsyncLogger.cpp:41-60 | a record goes to the end of the pipeline, switching buffers when it does not fit, with every buffer still held exactly once |
| AsyncLogger.AsyncLogger.Switch | sese/log/AsyncLogger.cpp:48-55 | the full buffer goes to the ready list and an empty one takes its place, the spare one if there is one |
| AsyncLogger.AsyncLogger.Collect | sese/log/AsyncLogger.cpp:90-103 | the ready list with the current buffer becomes the batch and both producer places are refilled; no buffer is made, lost or shared |
| AsyncLogger.AsyncLogger.Discard | sese/log/AsyncLogger.cpp:106-111 | an oversized batch is cut to two buffers and exactly the rest are deleted |
| AsyncLogger.AsyncLogger.DeleteRest | sese/log/AsyncLogger.cpp:107-110 | exactly the buffers behind the first two leave the heap, none of them held anywhere else |
| AsyncLogger.AsyncLogger.Dump | sese/log/AsyncLogger.cpp:114-121 | the batch is appended in order to what has been dumped, to the built-in appender and to every other one alike |
| AsyncLogger.AsyncLogger.Recycle | sese/log/AsyncLogger.cpp:124-144 | both spare places are refilled from the batch, whose last element is there each time it is taken, and the final clear drops no live buffer |
| AsyncLogger.AsyncLogger.TakeBack | sese/log/AsyncLogger.cpp:132-144 | with at most two buffers left every one of them goes back to a place of its own |
| JsonParser.Tokenizer | sese/config/Json.cpp:34-102 | the nested read loops produce exactly the tokens of a one-pass recursive scan, and fail exactly when it does |
| JsonParser.Parser.ParseObject | sese/config/Json.cpp:104-161 | one call moves the parser without changing what the whole parse will end in, consumes a token, and refuses or throws only when the recursive parse does |
| JsonParser.Parser.ParseArray | sese/config/Json.cpp:163-204 | the same for a list, which may also end with the input: then the stack gets shorter |
| JsonParser.Parse | sese/config/Json.cpp:206-234 | on every non-empty token queue, well-formed or not, the stack machine terminates with the result of the recursive parser |
| JsonParser.ParseStream | sese/config/Json.cpp:256-267 | reading a text is the recursive parse of its recursive scan |
| JsonPrinter.Printer.StreamifyObject | sese/config/Json.cpp:277-331 | one call keeps what has been written plus what the frames still stand for, with one iterator per dictionary frame in frame order, and always writes something |
| JsonPrinter.Printer.StreamifyArray | sese/config/Json.cpp:333-378 | the same for a list frame, which has no iterator |
| JsonPrinter.Printer.StreamifyBasic | sese/config/Json.cpp:380-397 | a leaf is written as its text, and refused exactly when it is a blob |
| JsonPrinter.Streamify | sese/config/Json.cpp:399-422 | the two-stack printer terminates and writes exactly the text of the recursive printer, failing exactly for what is no tree of printable leaves |
| JsonRoundTrip.RoundTrip | sese/config/Json.cpp:34-422 | printing any list or dictionary tree with clean keys and strings and reading the text gives the tree back |
| JsonKeys.RoundTripExactly | sese/config/Json.cpp:34-422 | a list or dictionary comes back from its own text if and only if all its keys and all its strings are clean |
| JsonKeys.LongWordIsLost | sese/config/Json.cpp:34-422 | a tree in whose text a word longer than every unclean key is read never comes back: the string it was cut from is missing, and only a yet longer word could stand in for it |
| JsonKeys.GoesOver | sese/config/Json.cpp:34-102 | over the text of any tree each string longer than the unclean keys is a token at most as often as it is printed, and less often if a word was cut from it |
| JsonKeys.FinishCounts | sese/config/Json.cpp:104-204 | parsing makes up no strings: each is in the result at most as often as among the tokens taken |
| JsonKeys.FeedIsScan | sese/config/Json.cpp:34-102 | reading character by character finds the tokens of the tokenizer, and so may stop anywhere |
| JsonRoundTrip.ReadStringsAreClean | sese/config/Json.cpp:50-71 | whatever text is read, the strings in the result are clean, so no other could come back |
| JsonRoundTrip.QuotedKeyIsLost | sese/config/Json.cpp:306-308 | a dictionary whose one key is a quote comes back as null |
| JsonRoundTrip.ScanRender | sese/config/Json.cpp:34-102 | the text of a tree scans to its tokens, whatever follows it |
| JsonRoundTrip.FinishTokens | sese/config/Json.cpp:104-204 | the tokens of a tree, members in any order, parse to what the tree says and leave what follows them |
| JsonRoundTrip.ReadsWhatIsSaid | sese/config/Json.cpp:34-422 | the text of any tree with clean keys and strings reads as the tree it says: dictionaries in key order holding every member, and of two values under one key the last |
| JsonRoundTrip.MergedMeans | sese/config/Json.cpp:139-154 | members set one after the other are a sorted dictionary that maps each key to its last value |
| JsonRoundTrip.LeafIsNotEntered | sese/config/Json.cpp:137-150 | a list or dictionary under the key of a leaf makes the parse fail |
| JsonRoundTrip.ClosedByTheEnd | sese/config/Json.cpp:163-204 | without its closing bracket a list at the end of the tokens is taken as it is, a dictionary refused |
| JsonRoundTrip.CommasAreOptional | sese/config/Json.cpp:104-204 | a comma before a member or an item makes no difference, and before a closing bracket it spoils the list |
| JsonText.ScanJoin | sese/config/Json.cpp:34-102 | tokens with any white space between them, a word parted from the next by white space or a mark that ends it, scan to exactly those tokens; an unfinished end adds none, and only an escape cut off fails |
| JsonText.WhiteSpaceIsFree | sese/config/Json.cpp:34-234 | white space of the six kinds anywhere between the tokens of a tree leaves what is read unchanged |
| JsonText.TextIsItsTokens | sese/config/Json.cpp:277-397 | what is printed of a tree is its tokens and nothing else |
| JsonText.BareKeyIsClipped | sese/config/Json.cpp:117-137 | a key without quotes is read without its first and last character |
| JsonText.BareItem | sese/config/Json.cpp:236-254 | a bare item is a literal, a double if a point stands behind its first character, else an integer or an exception |
| JsonValue.LeafRoundTrip | sese/config/Json.cpp:236-254 | the text of a null, bool, 64-bit integer or string reads back as that leaf, is not empty and starts with no structural character |
| JsonValue.EmplaceKeepsOrder | sese/config/Json.cpp:139-154 | setting an entry keeps the keys of a dictionary sorted and unique, whether the key was there or not |
| JsonValue.SetsOneKey | sese/config/Json.cpp:139-154 | as maps: setting overwrites the one key or adds it, taking a reference adds it only if it is not there, and every other entry stays |
| JsonValue.SortedIsUnique | sese/config/Json.cpp:139-154 | two sorted entry lists that say the same are the same |
| JsonValue.LessMeans | sese/config/Json.cpp:139-154 | the order of keys is by the first character that differs, the shorter first where none does |
| JsonValue.ReadsIntegers | sese/config/Json.cpp:253 | white space, a sign and digits are read up to the first character that is no digit, and refused without a digit or outside 64 bits |
| JsonValue.DigitsByTen | sese/config/Json.cpp:253 | digits count by ten, leading zeros for nothing |
| Timers.NeverEarly | sese/util/TimeWheel.cpp:69-97 | over any run no callback runs before its target |
| Timers.NothingOverdue | sese/util/TimeWheel.cpp:69-97 | after a check at time c no pending event has a target before c |
| Timers.FiringsOfOneEvent | sese/util/TimeWheel.cpp:80-86 | over any run a one-shot event fires at most once and a repeating one never twice within its range |
| Timers.GoneStaysGone | sese/util/TimeWheel.cpp:63-89 | an event that is no longer pending never becomes pending and never fires again |
| Timers.CancelledNeverFires | sese/util/TimeWheel.cpp:63-67 | no firing after a cancellation is of the cancelled event |
| Timers.RunHistory | sese/util/TimeWheel.cpp:49-97 | what is known of every firing holds in every state of every run: it was due, and a repeating event is already re-armed beyond it |
| TimeWheel.TimeWheel.constructor | sese/util/TimeWheel.cpp:23-32 | the slots form a ring of sixty, empty, with both times at the clock |
| TimeWheel.TimeWheel.Delay | sese/util/TimeWheel.cpp:49-61 | a new event is pending at the clock plus its delay, in its one slot |
| TimeWheel.TimeWheel.Cancel | sese/util/TimeWheel.cpp:63-67 | exactly that event is taken out of the set and of its slot |
| TimeWheel.TimeWheel.Check | sese/util/TimeWheel.cpp:69-97 | walking at most sixty slots fires exactly the due events, each once, re-arms the repeating ones and removes the others, in order of target if less than a turn has passed |
| TimeWheel.TimeWheel.SweepSlot | sese/util/TimeWheel.cpp:77-93 | the walk over one list, which may grow behind itself, ends and leaves nothing due in the slots visited so far |
| TimeWheel.AppendPlaces | sese/util/TimeWheel.cpp:57-58 | every pending event stays in exactly the one slot its target belongs to when one is added |
| TimeWheel.RemovePlaces | sese/util/TimeWheel.cpp:64-66 | and when one is taken out |
| TimeWheel.FireInWalk | sese/util/TimeWheel.cpp:81-90 | firing, re-arming and erasing keeps the whole of what is known of a check in progress, and one event less is unfired |
| TimeWheel.SweptExactly | sese/util/TimeWheel.cpp:71-96 | once the slots from the last check up to now are quiet, the events fired are exactly those due |
| TimeWheel.SlotTells | sese/util/TimeWheel.cpp:57-74 | the slot a number of steps on from the last check holds exactly the targets that lie so far round the wheel |
| Timers.InOrderWithinATurn | sese/util/TimeWheel.cpp:69-97 | a check less than sixty seconds after the last one fires in the order of the targets |
| Timers.OrderNeedsLessThanATurn | sese/util/TimeWheel.cpp:69-97 | in every run that delays one event by sixty seconds and, in the same second, another by one, a first check after sixty seconds or more fires them in the wrong order |
| ByteStreams.RunConserves | sese/io/AbstractByteBuffer.cpp:123-315 | over any run of writes, reads, peeks, skips and resets what has been consumed and what is unread are together everything written, in order |
| ByteStreams.PeekThenRead | sese/io/AbstractByteBuffer.cpp:192-315 | a peek previews the next read, and reading or skipping in two portions is doing it in one |
| AbstractByteBuffer.AbstractByteBuffer.constructor | sese/io/AbstractByteBuffer.cpp:30-36 | one fresh node, no bytes, cursor at the start |
| AbstractByteBuffer.AbstractByteBuffer.Copy | sese/io/AbstractByteBuffer.cpp:38-93 | the copy has fresh memory, the same contents, cursor and node contents, and leaves the source as it was |
| AbstractByteBuffer.AbstractByteBuffer.ResetPos | sese/io/AbstractByteBuffer.cpp:123-126 | the cursor is back at the start of the same contents |
| AbstractByteBuffer.AbstractByteBuffer.Eof | sese/io/AbstractByteBuffer.cpp:128-137 | true exactly when nothing is unread, although it looks at two nodes only |
| AbstractByteBuffer.AbstractByteBuffer.GetLength | sese/io/AbstractByteBuffer.cpp:139-141 | the number of bytes ever written |
| AbstractByteBuffer.AbstractByteBuffer.GetCapacity | sese/io/AbstractByteBuffer.cpp:143-145 | the memory of all nodes together |
| AbstractByteBuffer.AbstractByteBuffer.GetReadableSize | sese/io/AbstractByteBuffer.cpp:147-159 | the number of unread bytes |
| AbstractByteBuffer.AbstractByteBuffer.Read | sese/io/AbstractByteBuffer.cpp:192-220 | as many bytes as asked for or there are, in write order across nodes, and the cursor moves over them |
| AbstractByteBuffer.AbstractByteBuffer.Write | sese/io/AbstractByteBuffer.cpp:222-251 | all bytes go behind the contents, over as many new nodes as they need and no more, each of the growth factor, the cursor staying where it is |
| AbstractByteBuffer.AbstractByteBuffer.Fill | sese/io/AbstractByteBuffer.cpp:226-237 | copying into the node being written appends those bytes |
| AbstractByteBuffer.AbstractByteBuffer.Switch | sese/io/AbstractByteBuffer.cpp:240-246 | linking a new node behind a full one changes neither contents nor cursor |
| AbstractByteBuffer.AbstractByteBuffer.Peek | sese/io/AbstractByteBuffer.cpp:253-285 | the bytes the next read would give, with nothing changed |
| AbstractByteBuffer.AbstractByteBuffer.Trunc | sese/io/AbstractByteBuffer.cpp:287-315 | moves the cursor as the read would and returns how far |
| AbstractByteBuffer.CopyChain | sese/io/AbstractByteBuffer.cpp:64-86 | a copied chain holds the same bytes node by node, with the write and read node at the corresponding places |
| Sha1.Encode | sese/util/SHA1Util.cpp:179-222 | for every message, on either kind of host, the twenty bytes are the digest of FIPS 180-4 |
| Sha1.FullBlocks | sese/util/SHA1Util.cpp:185-189 | whole blocks are hashed until a read comes up short, with the rest of the message in the buffer and the length counted |
| Sha1.FinishLong | sese/util/SHA1Util.cpp:192-206 | a tail of over 55 bytes is padded over two blocks |
| Sha1.FinishShort | sese/util/SHA1Util.cpp:207-216 | a shorter one within its block |
| Sha1.Transform | sese/util/SHA1Util.cpp:68-164 | eighty unrolled rounds with renamed registers on a block that the schedule overwrites are the compression of section 6.1.2 |
| Sha1.FirstTwenty | sese/util/SHA1Util.cpp:76-96 | rounds 0 to 19 by the present names of the registers |
| Sha1.SecondTwenty | sese/util/SHA1Util.cpp:97-116 | rounds 20 to 39 |
| Sha1.ThirdTwenty | sese/util/SHA1Util.cpp:117-136 | rounds 40 to 59 |
| Sha1.FourthTwenty | sese/util/SHA1Util.cpp:137-156 | rounds 60 to 79 |
| Sha1.R0 | sese/util/SHA1Util.cpp:39-42 | one round of the first sixteen, whose word is still in the block |
| Sha1.R1 | sese/util/SHA1Util.cpp:44-48 | one round that first makes the next word of the schedule in place |
| Sha1.R2 | sese/util/SHA1Util.cpp:50-54 | the same with the parity function, in rounds 20 to 39 |
| Sha1.R3 | sese/util/SHA1Util.cpp:56-60 | the same with the majority function, written differently in the code |
| Sha1.R4 | sese/util/SHA1Util.cpp:62-66 | the same with the last constant |
| Sha1.BlkIsNextWord | sese/util/SHA1Util.cpp:32-34 | indexing modulo sixteen into the window gives word t of the 80-word schedule and keeps the window of the last sixteen |
| Sha1.FunctionsAgree | sese/util/SHA1Util.cpp:39-66 | the choice and majority expressions of the code are the functions of section 4.1.1 |
| Sha1.RoundDone | sese/util/SHA1Util.cpp:39-42 | a sum into the fifth register and a rotation of the second, under new names, are the shift of all five |
| Sha1.BufferToBlock | sese/util/SHA1Util.cpp:166-171 | the sixteen words are the bytes read with the most significant first |
| Sha1.Write | sese/util/SHA1Util.cpp:218-221 | swapping and writing the state gives its bytes with the most significant first on either kind of host |
| MessagePadding.ShortTail | sese/util/SHA1Util.cpp:207-216 | message and padding of section 5.1.1 are the whole blocks and one block made of the tail, when it is up to 55 bytes |
| MessagePadding.LongTail | sese/util/SHA1Util.cpp:192-206 | or two blocks when it is longer |
| MessagePadding.LengthBytes | sese/util/SHA1Util.cpp:201-203 | the wrapped counter, times eight, swapped and copied, is the length field of the standard |
| Words.BigEndianInMemory32 | sese/util/Endian.h:34-56 | a word swapped for big endian lies in memory most significant byte first, on either kind of host |
| Words.BigEndianInMemory64 | sese/util/Endian.h:35-60 | the same for 64 bits |
| Words.BytesInOrder | sese/util/Endian.h:34-60 | which byte of a word is which, on either kind of host |
| Sha1Spec.ConstantsAreRoots | sese/util/SHA1Util.cpp:39-66 | the four constants of the rounds are the square roots of 2, 3, 5 and 10 |
| Sha1Spec.InitialCounts | sese/util/SHA1Util.h:31 | the initial state counts up and down in half bytes, least significant byte first |
| Sha256Spec.ConstantsAreRoots | sese/util/SHA256Util.cpp:230 | the 64 constants are the first 32 bits behind the point of the cube roots of the first 64 primes |
| Sha256Spec.InitialIsRoots | sese/util/SHA256Util.cpp:247 | the initial state is those of the square roots of the first eight |
| Sha256.SmallSigmaRotationsAgree | sese/util/SHA256Util.cpp:93-158 | the byte-wise rotations by 7, 17, 18 and 19 are rotations of the 32-bit word |
| Sha256.BigSigmaRotationsAgree | sese/util/SHA256Util.cpp:71-180 | so are those by 2, 6, 11, 13, 22 and 25 |
| Sha256.ShiftsAgree | sese/util/SHA256Util.cpp:52-69 | and the shifts by 3 and 10 |
| Sha256.AddAgrees | sese/util/SHA256Util.cpp:198-205 | addition through the host's own word is addition modulo 2^32 on either kind of host |
| Sha256.StoredValue | sese/util/SHA256Util.cpp:32-35 | a word made from a number stands for that number |
| Sha256.Structure | sese/util/SHA256Util.cpp:365-376 | the word sixteen places on is the next of the schedule, and no other changes |
| Sha256.EncodeRound | sese/util/SHA256Util.cpp:387-403 | eight registers moved in place are one round of section 6.2.2 |
| Sha256.Block | sese/util/SHA256Util.cpp:253-267 | schedule, rounds and sums are the compression of one block |
| Sha256.FullBlocks | sese/util/SHA256Util.cpp:251-268 | after any number of full blocks the state is the fold of section 6.2.2 over them, with the rest of the message in memory in front of what was left over |
| Sha256.MarkExactly | sese/util/SHA256Util.cpp:275 | the byte laid behind the message is 0x80 on a little-endian host and zero on a big-endian one |
| Sha256.ShortBlockIsPadded | sese/util/SHA256Util.cpp:271-277 | for a tail of up to 47 bytes the last block is that of the standard if and only if the host is little-endian and the bytes the clearing misses are zero, and up to 44 it misses none |
| Sha256.LongBlockIsPadded | sese/util/SHA256Util.cpp:298-300 | for a tail of over 55 bytes the first of the last two blocks is that of the standard if and only if the host is little-endian |
| Sha256.AbsorbedIsPadded | sese/util/SHA256Util.cpp:251-322 | all that is hashed of a message is the padded message of section 5.1.1 if and only if the host is little-endian and the clearing misses nothing but zeros |
| Sha256.EmptyMessageHasNoMark | sese/util/SHA256Util.cpp:271-277 | of the empty message a big-endian host hashes 64 zeros, a little-endian one the mark and 63 zeros |
| Sha256.LeftoversSpoilPadding | sese/util/SHA256Util.cpp:274 | a tail of 47 bytes behind a block of ones is padded wrongly |
| Sha256.FinishShort | sese/util/SHA256Util.cpp:271-295 | the state takes in that block, with the mark of the host and clearing exactly as many bytes as the code does |
| Sha256.FinishLong | sese/util/SHA256Util.cpp:298-339 | the state takes in a block with the tail, the mark of the host and zeros, and one with the length |
| Sha256.Encode | sese/util/SHA256Util.cpp:240-342 | on either kind of host the hash of all that is taken in; on a little-endian one this is the digest of FIPS 180-4 for every tail of up to 44 or over 55 bytes, and of 45 to 47 whenever the left-over bytes are zero |
| Sha256.AbsorbedDigest | sese/util/SHA256Util.cpp:270-339 | on a little-endian host the last block or blocks lead to the digest of the whole message whenever the clearing misses nothing but zeros |
| Sha256.HashedWith | sese/util/SHA256Util.cpp:279-294 | taking in one more block is hashing the bytes with that block behind them |
| Utf8Char.RoundTrip | sese/text/SString.cpp:56-132 | every character up to 0x7ffff comes back from its bytes, whose first one tells how many there are and is zero only for the zero character |
| Utf8Char.EncodesTheStandard | sese/text/SString.cpp:70-132 | the bytes are those of the table of RFC 3629 if and only if the character is at most 0x7ffff; beyond it there is no size and nothing is written |
| Utf8Char.ReadsTheStandard | sese/text/SString.cpp:56-102 | every character up to 0x10ffff is read from the bytes of the table of RFC 3629, the first telling how many |
| Utf8Char.ReadsTheBits4 | sese/text/SString.cpp:98-99 | of any four bytes exactly the bits that the table gives to the character are read |
| Utf8Char.ReadsTheBits3 | sese/text/SString.cpp:96-97 | the same of any three |
| Utf8Char.ReadsTheBits2 | sese/text/SString.cpp:94-95 | and of any two |
| Utf8Char.SizeByRange | sese/text/SString.cpp:56-68 | which of all first bytes start a character of one, two, three or four bytes, and which none |
| Utf8String.DecodeEncode | sese/text/SString.cpp:324-342 | reading what a list of characters was written as gives the list up to its first zero, wherever it stands |
| Utf8String.ComesBackWhole | sese/text/SString.cpp:324-342 | the whole list comes back if and only if there is no zero in it |
| Utf8String.DecodesUpToStop | sese/text/SString.cpp:680-693 | a decoding gives the characters up to a zero byte, a false start or a cut-off character, and exactly those |
| Utf8String.EncodableMeans | sese/text/SString.cpp:70-82 | the lists taken are those of characters for which there is a size |
| Utf8String.CharAt | sese/text/SString.cpp:56-68 | the bytes of character k stand behind those of the characters before it and tell their own number |
| SString.InsertUnicodeChar2Utf8String | sese/text/SString.cpp:113-132 | exactly the bytes of the character are overwritten, and the call fails exactly for a size that is none |
| SString.SString.FromSChars | sese/text/SString.cpp:324-342 | the string holds the encoding of the list, with a zero byte behind it |
| SString.SString.ToChars | sese/text/SString.cpp:680-693 | on any bytes, well-formed or not, the characters up to the first zero, false start or cut-off character |
| SString.SString.Len | sese/text/SString.cpp:489-500 | their number |
| SString.SString.At | sese/text/SString.cpp:725-740 | the one at an index, or the null character |
| SString.SString.Reverse | sese/text/SString.cpp:567-584 | the bytes are the encoding of the reversed list, zeros included |
| SString.SString.PointerTo | sese/text/SString.cpp:142-159 | the place where a character starts, or none if a zero byte comes first |
| SString.SString.SubstringFrom | sese/text/SString.cpp:637-648 | the encoding of the list from there on |
| SString.SString.Substring | sese/text/SString.cpp:650-678 | the encoding of that stretch of the readable characters, shorter where they end |
| SString.BackwardsTwice | sese/text/SString.cpp:567-584 | a list reversed twice is itself |
| SString.BackwardsConcat | sese/text/SString.cpp:567-584 | two lists joined are reversed each for itself, the second first |
| Frames.OneReading | sese/system/IPC.cpp:146-163 | the bytes of an area say which frames it holds: it cannot be read in two ways |
| Frames.FrameAt | sese/system/IPC.cpp:123-126 | where each frame starts, its identifier, length and payload stand as written, in either byte order |
| Frames.ReadOrLeft | sese/system/IPC.cpp:166-178 | what is read and what is left are together exactly the frames there were |
| Ipc.Scan | sese/system/IPC.cpp:144-163 | the first walk finds every frame up to the mark of the end and stops there |
| Ipc.MoveFrame | sese/system/IPC.cpp:171-173 | a frame whose payload lies further back ends up whole in front, although its header is written first over memory it shares |
| Ipc.CompactionKeeps | sese/system/IPC.cpp:170-177 | keeping a frame never touches a frame not yet visited |
| Ipc.CompactionSkips | sese/system/IPC.cpp:167-169 | reading one leaves the area as it is |
| Ipc.IPCChannel.constructor | sese/system/IPC.cpp:50-62 | a new area is zero and so holds no frame and the mark of the end; of the stored size one half is kept, according to the byte order |
| Ipc.SizeKeptExactly | sese/system/IPC.cpp:56-62 | clearing bytes 4 to 8 of the header leaves the size modulo 4 GiB on a little-endian machine, and the size rounded down to whole 4 GiB on a big-endian one |
| Ipc.NothingFits | sese/system/IPC.cpp:56-62 | on a big-endian machine a channel of less than 4 GiB passes no message, wherever it would be put |
| Frames.PutsInOrder | sese/system/IPC.cpp:124-125 | the bytes of a number in either byte order |
| Ipc.IPCChannel.Read | sese/system/IPC.cpp:139-183 | exactly the payloads with the identifier in order; the area then is exactly the others in order, the mark of the end, and what was behind it before, with tail the total size of the others |
| Ipc.IPCChannel.Write | sese/system/IPC.cpp:115-131 | a frame is laid behind the others if and only if eight bytes and the message fit the size and four more, and every other byte is left |
| Ipc.FirstMessage | sese/system/IPC.cpp:40-131 | the first message to a channel of less than 4 GiB is taken if and only if the machine is little-endian and the message and four bytes fit the size |
| Ipc.StaysInside | sese/system/IPC.cpp:118-126 | of all messages exactly those that end within the size both pass the check and leave everything behind the area alone |
| Ipc.WrittenIsReadable | sese/system/IPC.cpp:115-131 | the longer area is well-formed if and only if the four bytes behind the frame are zero |
| Ipc.StaleBytes | sese/system/IPC.cpp:115-183 | writing twice, reading the first message and writing an empty one leaves an area whose next identifier is not zero |
| PrefixFunction.GetNext | sese/text/Algorithm.cpp:25-39 | entry i is the length of the longest proper prefix of the first i + 1 characters that is also their suffix, for every string |
| PrefixFunction.Fallback | sese/text/Algorithm.cpp:30-32 | when a candidate does not extend, the longest one that can is its own longest border |
| PrefixFunction.TableVisitsEveryBorder | sese/text/Algorithm.cpp:30-32 | following the table from a length visits all borders of that prefix and nothing else |

## Left out

- Sockets, TLS, files, archives, compression, databases, processes, plugins, YAML, calendar and the
  other wrappers: I/O and foreign calls.
- `LinkedQueue`: nodes are never given back, so reclaiming them is not modelled; nor is `empty()`,
  two unrelated loads. Memory is sequentially consistent, as the default atomics are.
- `BufferedQueue11`: its calls are single critical sections under one mutex, so nothing interleaves.
- AsyncLogger.AsyncLogger.Log: the formatter and the level filter are left out, so the record is the
  content it makes and every event passes the filter.
- AsyncLogger.AsyncLogger.Dump: the appenders are taken to write all they are given; the early
  return of `dump(buffer, length)` and the drain at shutdown are left out, as is the wait.
- JsonPrinter.Streamify: the text of a double is taken as given by the C++ library; failing output
  streams are left out, and a frame counter is unbounded, not 32 bits.
- JsonKeys.RoundTripExactly: trees with doubles, whose printed text need not give the same double.
- JsonParser.ParseStream: a double reads as its text and an integer outside 64 bits throws, as
  `std::stoll` does; text that `std::stod` refuses is not told apart. The simdjson path is left out.
- Shared ownership of JSON values is not modelled: a subtree has one parent.
- TimeWheel.TimeWheel.Delay: a repeating event needs a range of at least one second; with none the
  walk in `check` would not end.
- TimeWheel.TimeWheel.Cancel: an event that has been deleted may not be cancelled. Callbacks that
  call the wheel are left out.
- AbstractByteBuffer.AbstractByteBuffer.constructor: a growth factor of zero is left out; a write
  that outgrows the first node would not end. Moving, swapping and `freeCapacity` are left out;
  `getLength` and `getCapacity` are claimed only for buffers on which it is never called.
- AbstractByteBuffer.AbstractByteBuffer.Read: the bytes copied to the caller are returned as a
  sequence, not written into the caller's memory.
- Sha256.Encode: tails of 48 to 55 bytes, for which the source clears a negative count.
- Sha1.Encode: streams that come up short before their end, and hexadecimal output.
- SString.SString.FromSChars: characters above 0x7ffff, which the code says it does not process.
- SString.SString.Reverse: bytes that are no encoding, on which the code steps backwards; likewise
  for cutting. Searching, splitting, trimming, case and wide characters are left out.
- Ipc.IPCChannel.Read: the area is one that holds frames; semaphore and shared memory are left out.
- Ipc.IPCChannel.Write: the source allocates the size; the model's memory has the four bytes behind
  it as well, so that what the check lets through too much can be seen.
- `KMP`, `BM` and what is built on them: `KMP` builds its table from the text and not the pattern, and
  the shifts of `BM` can skip a match; no claim of matching is made.
- Base64, percent coding, ring queues, hex dumps and time spans: each is one short loop or expression.
