# Verified models of ffos algorithms

ffos is a portability layer over operating systems. Most of it is one system call per function; this project
models the headers that hold real algorithms or protocols and proves what they promise, for all inputs, all
runs and all interleavings. Every system call and every ffbase call enters as a contract or as a parameter
that may answer anything.

| part | files | what is modelled |
|---|---|---|
| timer queue | `WrapTime`, `TimerTree`, `TimerSpec`, `TimerProcess`, `TimerQueue`, `TimerRun` | nodes linked into a search tree under 32-bit keys that wrap every 49 days, against a priority queue over unbounded time |
| path normaliser | `PathSyntax`, `PathNormal`, `PathNormalize`, `PathTheorems`, `PathDisks`, `PathFlags` | the one-pass loop that rescans its own output buffer, against a stack of components and the meaning of paths |
| kernel call queue | `KCallObject`, `KCallQueue`, `KCallTheorems`, `KCallProgress`, `KCallDiscipline`, `KCallCode`, `KCallCapacity` | callers, workers and a completion thread as interleaved atomic steps over two bounded queues, and the drain loops on real objects |
| sockets | `IoVectors`, `AsyncSend` | vectors shifted in place; the Windows send that hands one byte over when blocked |
| timer thread | `TimerThread` | the Windows command handshake over two auto-reset events |
| directory listing | `DirOrder`, `DirScan` | the name comparator, and a packed buffer of names and offsets |
| command line | `CmdLine` | the two-pass printer of an argument list, and a reader for its output |

How the timer queue is put together: `TimerSpec` is the queue over unbounded integers; `TimerQueue.TimerQueue` is
the code's queue, with link, key and active fields written in place, and each of its methods is proved to do to the
32-bit tree what `TimerSpec` does to the unbounded queue, as long as due times lie in a window shorter than 2^31;
`TimerRun` proves that the window holds in every reachable state of every run that respects the two bounds, with
drains entered from callbacks to any depth. The balanced-tree library is a contract: after it relinks, the links
may spell any tree with the same in-order listing.

How the kernel call queue is put together: `KCallObject` has the steps of one object, `KCallQueue` interleaves them,
`KCallTheorems` states the guarantees over every run, `KCallProgress` that every call is answered in the end,
`KCallDiscipline` what callers must keep to and what it costs not to, and `KCallCode` shows that the drain loops and entry points,
writing the overlaid fields in place, are runs of that model.

## Where code and documentation part

- `fftimerqueue_process` re-arms a periodic timer with a plain unsigned maximum (FFOS/timerqueue.h:131).
  `RearmIsMaxIffSameEpoch` proves that this is the intended later time exactly when both candidates lie in one 2^32
  epoch, and `RearmAcrossTheWrap` shows both failures: a late timer stays late and fires again in the same drain, and
  a punctual one is re-armed for the next millisecond. `FiresOnceIff` is the exact condition for firing once.
- FFOS/kcall.h:47 documents state 1 as "in SQ", but no code sets it. An `*_async` call is therefore safe exactly when
  the caller's last submission is not under way or the state field already says complete (`AsyncKeepsInvIff`,
  `AsyncKeepsInvForCaller`, `InvThroughoutIff`). Made earlier it returns the submitted arguments as a result and the
  call is lost (`EarlyAsyncLosesCall`). After a cancel a caller has no way to tell (`CancelHidesWhere`), and
  submitting too early queues the object twice (`EarlyResubmitQueuesTwice`). The run-level theorems assume callers
  keep to the safe case.
- The name comparator is not a case-insensitive dictionary order: the case of an equal letter outweighs all later letters
  (`FirstDifferenceDecides`, `CaseBeforeLaterLetters`).
- FFPATH_FORCE_BACKSLASH with splitting by slash alone loses components (`MeaningPreservedIff`). With disk letters, the
  default on Windows, a relative path can become a path on a drive: `MeaningWithDrivesIff` is the exact condition and
  `RelativeBecomesDrive` the failing family. SIMPLE together with a disk letter is not idempotent (`IdempotentIff`,
  `NotIdempotentExample`).
- `_ffargv_to_cmdln` prints the empty list and a list of one empty argument alike, and no other two lists
  (`PrintingIsInjectiveIff`). An empty argument leaves only its space in the line, so a reader that merges adjacent
  spaces does not see it; the reader here does not merge them.
- `fftimer_start` documents a negative period as one callback after its magnitude (FFOS/timer.h:333-335). On Windows
  the due time then comes out positive, hence absolute, and the callback comes at once (`DelayAsDocumentedIff`,
  `NegativePeriodFiresAtOnce`).

## Model

| member | source | states |
|---|---|---|
| WrapTime.DiffIsTrueDifference | FFOS/timerqueue.h:111-124 | the signed 32-bit difference of two readings is their true difference if and only if that lies in the half-open range from -2^31 to 2^31 |
| WrapTime.UnsignedOrder | FFOS/timerqueue.h:131-131 | comparing two readings less than 2^32 apart as plain unsigned words gives the true order inside one epoch and the reverse order across epochs |
| TimerTree.GraftAtSplit | FFOS/timerqueue.h:41-54 | when the listing splits into nodes that sort the new one right and nodes that sort it left, the descent hangs it exactly at the split, whatever the shape of the tree |
| TimerTree.RotationsKeepOrder | FFOS/timerqueue.h:63-63 | any sequence of rotations, anywhere in the tree, keeps the in-order listing; this is what the contract of the balanced-tree library rests on |
| TimerTree.RotationUndone | FFOS/timerqueue.h:63-63 | a rotation swaps a node with its child, and the opposite rotation at the same place restores the tree |
| TimerQueue.LinksAfterGraft | FFOS/timerqueue.h:33-57 | hanging a node changes one child link of the parent found, gives the node null children and that parent, and leaves every other link alone |
| TimerQueue.TimerQueue.FindParent | FFOS/timerqueue.h:38-51 | the loop over real links ends at the parent at which the abstract descent ends, on the same side |
| TimerQueue.TimerQueue.Hang | FFOS/timerqueue.h:31-58 | writing the links in place turns the listing a + b into a + node + b, where a holds the nodes whose wrapped difference is not negative |
| TimerQueue.TimerQueue.Min | FFOS/timerqueue.h:106-108 | the leftmost node is the first one listed, null if and only if the tree is empty |
| TimerQueue.TimerQueue.Remove | FFOS/timerqueue.h:68-76 | takes exactly that node out of links and of the unbounded queue and reports whether it was active, even though its key may already have been overwritten; active holds exactly for linked nodes |
| TimerQueue.TimerQueue.AddNode | FFOS/timerqueue.h:80-85 | re-adding a linked node under a new key is removal followed by insertion |
| TimerQueue.TimerQueue.Add | FFOS/timerqueue.h:87-94 | the node is due the magnitude of the interval after the clock, placed among the others as over unbounded time, and becomes active |
| TimerQueue.TimerQueue.Due | FFOS/timerqueue.h:106-124 | the 32-bit expiry test of the first node agrees with the unbounded one |
| TimerQueue.TimerQueue.FireNode | FFOS/timerqueue.h:126-134 | the first node leaves the queue and, if periodic, re-enters at its new due time; the window survives |
| TimerQueue.TimerQueue.Process | FFOS/timerqueue.h:100-140 | terminates for every behaviour of callbacks that remove timers or add ones due later; calls the same functions in the same order as the unbounded queue, leaves its image, returns the number of calls, and nothing left is due |
| TimerSpec.RearmMovesForward | FFOS/timerqueue.h:130-131 | a re-armed due time lies after the old one and at most one interval past now |
| TimerSpec.RearmKey | FFOS/timerqueue.h:131-131 | the 32-bit computation yields the key of the due time the unbounded queue uses |
| TimerSpec.RearmIsMaxIffSameEpoch | FFOS/timerqueue.h:131-131 | the re-armed time is the later of the two candidates if and only if both lie in one 2^32 epoch, otherwise it is the earlier |
| TimerSpec.RearmAcrossTheWrap | FFOS/timerqueue.h:131-131 | concrete late and punctual timers near the wrap for which the rule gives the wrong time |
| TimerProcess.FiringLessLate | FFOS/timerqueue.h:104-138 | total lateness, plus one per due timer, strictly falls with every firing and its callback |
| TimerProcess.Process | FFOS/timerqueue.h:104-139 | the drain over unbounded time ends with nothing due |
| TimerProcess.FiringsInOrder | FFOS/timerqueue.h:43-46 | the firings of one drain strictly increase by due time and, for equal times, by insertion |
| TimerProcess.FiresUnlessTouched | FFOS/timerqueue.h:126-137 | whatever callbacks remove or add for later, a due timer fires if and only if no callback of an earlier firing removed it or added it anew |
| TimerProcess.FiresAtMostOnce | FFOS/timerqueue.h:126-137 | a one-shot timer, or one re-armed past now, fires at most once per drain |
| TimerProcess.FiresOnceIff | FFOS/timerqueue.h:126-137 | a due timer that no callback touches, whatever they do to others, fires, and only once, if and only if it is one-shot, not late by an interval, or re-armed within one epoch |
| TimerRun.StepKeepsInv | FFOS/timerqueue.h:87-140 | every step, in nested drains too, keeps all due times between the last finished drain and M past the clock |
| TimerRun.RunKeepsInv | FFOS/timerqueue.h:87-140 | so does every run whose intervals are at most M and in which at most L ms pass without a finished drain or within one |
| TimerRun.WindowMakesComparisonsRight | FFOS/timerqueue.h:43-43 | with L + M below 2^31 every 32-bit comparison in such a state is the true one, and so are the differences compared |
| TimerRun.BoundIsExact | FFOS/timerqueue.h:111-123 | the sign tests made on insertion and on expiry are right in all reachable states of all such runs if and only if L + M is below 2^31 |
| TimerRun.DrainsEnd | FFOS/timerqueue.h:104-139 | while the clock stands and callbacks add only later timers, no more rounds of drains, nested to any depth, are run than the lateness at the start, the drains under way and those entered since |
| TimerRun.Drive | FFOS/timerqueue.h:68-140 | over every such run, wrap and nested drains included, the 32-bit queue fires the same timers in the same order as the unbounded one and ends as its image |
| PathSyntax.SegmentsOfRender | FFOS/path.h:268-270 | splitting what components render to gives the components back |
| PathSyntax.RenderOfSegments | FFOS/path.h:268-270 | and rendering the components of a path gives the path back |
| PathNormal.NeverGrows | FFOS/path.h:324-325 | under any flags the result is no longer than the input and a buffer of the input's length suffices |
| PathNormal.TopOfBuffer | FFOS/path.h:289-317 | scanning the buffer backwards for a separator finds exactly the top component of the stack it renders |
| PathNormal.NormalRefinesStack | FFOS/path.h:251-341 | if a forced separator is one the path is split by, the output is the rendering of the component stack and splits into exactly that stack |
| PathNormal.ForcedInSplitByFlags | FFOS/path.h:256-266 | which flags and platform make the forced separator one the path is split by |
| PathTheorems.MeaningPreserved | FFOS/path.h:234-248 | from every current directory, input and output lead to the same place |
| PathTheorems.MeaningPreservedIff | FFOS/path.h:219-266 | for flags without SIMPLE and disk letters, all paths keep their meaning if and only if backslash is not forced while splitting by slash alone |
| PathTheorems.BackslashLosesComponents | FFOS/path.h:329-333 | the path a/b becomes a single component when backslash is forced and only slash splits |
| PathTheorems.OutputForm | FFOS/path.h:236-248 | no empty or dot component after the first, dot-dot only in a leading run and never under an absolute root; with SIMPLE only real names and no leading separator |
| PathTheorems.ComponentsFromInput | FFOS/path.h:326-337 | every component of the result is one of the input, with its separator kept or, if one is forced, replaced by that |
| PathDisks.NoColonNoDisk | FFOS/path.h:266-305 | disk-letter handling makes no difference to paths without a component ending in a colon |
| PathDisks.DriveIsRoot | FFOS/path.h:227-228 | with disk letters a leading component ending in a colon stays, and what follows is resolved below it without ever leaving it |
| PathDisks.MeaningWithDrivesIff | FFOS/path.h:234-305 | with disk letters, from every current place, input and output lead to the same drive and location if and only if the path does not cancel out its leading names and then bring a component ending in a colon to the front |
| PathDisks.RelativeBecomesDrive | FFOS/path.h:293-309 | every relative path x/../d:/../y becomes d:/y, a path on a drive |
| PathDisks.SimpleDropsDrive | FFOS/path.h:227-281 | for every path, with SIMPLE and disk letters the components of the result are those after a leading drive, resolved from the root, where a lone component ending in a colon is not left |
| PathTheorems.SimpleIsResolvedFromRoot | FFOS/path.h:225-225 | with SIMPLE the components of the result are exactly the place the input leads to from the root |
| PathTheorems.SimpleStaysUnderBase | FFOS/path.h:272-322 | appended to any base directory, a SIMPLE result leads to a place under it |
| PathDisks.IdempotentIff | FFOS/path.h:268-340 | normalising the result again changes nothing if and only if it is not the case that, with SIMPLE and disk letters, the place the input leads to after its drive starts with a component ending in a colon |
| PathDisks.NotIdempotentExample | FFOS/path.h:277-281 | SIMPLE with disk letters takes one leading component off at every call |
| PathNormalize.Decide | FFOS/path.h:272-322 | the code's branches on the buffer come to the specified decision on how much to keep and whether to write |
| PathNormalize.Normalize | FFOS/path.h:251-341 | writes nothing at or past the capacity, fails exactly when some write would not fit, never when the buffer is as long as the input, and otherwise leaves the normal form in the buffer, as the flags promise it (next row), and returns its length |
| PathFlags.NormalAsFlagsSay | FFOS/path.h:219-266 | in flags and bytes: which characters split, when a colon makes a drive, which separators are left when slash or backslash is forced, the place SIMPLE resolves to, and otherwise a canonical path to the same place |
| KCallObject.AsyncOk | FFOS/kcall.h:171-192 | made on a free or completed object, an async call keeps the object's history straight, and a result it returns is the one computed for the last submission |
| KCallObject.WorkerStepsOk | FFOS/kcall.h:79-128 | the steps of a worker, storing result and error over the arguments, keep the object consistent with what was submitted and answered |
| KCallObject.ReaderStepsOk | FFOS/kcall.h:142-148 | so do clearing the state and calling the handler |
| KCallObject.AnswerRightIff | FFOS/kcall.h:173-191 | unless it cancelled, a caller gets a right answer from an async call if and only if its last submission is not accepted and unhandled, or the state field says complete |
| KCallObject.EarlyAsyncReturnsArguments | FFOS/kcall.h:182-186 | asked while the object waits in the submission queue, the call returns the submitted arguments as a result |
| KCallQueue.StepKeepsInv | FFOS/kcall.h:111-169 | every step of every thread keeps each object in one place and its history straight |
| KCallQueue.StepKeepsCqWakes | FFOS/kcall.h:124-133 | a non-empty completion queue keeps a pending event, a reader at work or a worker about to post, although posts happen only on an empty queue |
| KCallQueue.StepKeepsSqServed | FFOS/kcall.h:111-169 | for every queued submission there is a semaphore count, a caller about to post or a worker about to look, so none waits until a worker returns from a system call |
| KCallQueue.CqNeverFull | FFOS/kcall.h:124-128 | with no more objects than places in the completion queue, a worker about to add finds room |
| KCallQueue.EveryRunIsSafe | FFOS/kcall.h:111-169 | all of this holds after every interleaving of callers, workers and completion thread |
| KCallTheorems.AtMostOnePlace | FFOS/kcall.h:111-149 | over every run an object is in the submission queue, in one worker's hands, in the completion queue or with the reader, and at most once there |
| KCallTheorems.HandledAtMostOnce | FFOS/kcall.h:145-154 | over every run no submission is handled twice, a cancelled one not at all, and what a caller collects is the answer to exactly what it submitted |
| KCallTheorems.HandledExactlyOnceWhenDrained | FFOS/kcall.h:111-149 | once both queues are drained every accepted submission was handled exactly once or had been cancelled |
| KCallTheorems.NoLostWakeup | FFOS/kcall.h:124-169 | from the initial state no interleaving leaves completed calls with nobody to look at them, nor more submissions queued than counts, callers about to post and workers about to look, nor reaches the assertion while the completion queue has room for all objects |
| KCallTheorems.CancelledNeverHandled | FFOS/kcall.h:145-154 | cancelling at any point before delivery means that the handler of that submission never runs, whatever follows |
| KCallProgress.NeverStuck | FFOS/kcall.h:111-169 | until both queues are drained some thread can take a step |
| KCallProgress.BoundedWork | FFOS/kcall.h:111-169 | with a semaphore and an event the threads take only boundedly many steps without a new call, in whatever order |
| KCallProgress.EveryCallIsAnswered | FFOS/kcall.h:111-169 | hence they come to rest, and then only with both queues drained and every accepted submission handled exactly once or cancelled |
| KCallDiscipline.AsyncKeepsInvIff | FFOS/kcall.h:171-192 | an async call keeps every object in one place and its history straight if and only if it is made on an object that is free or marked complete |
| KCallDiscipline.AsyncKeepsInvForCaller | FFOS/kcall.h:171-192 | in the caller's terms: if and only if its last submission is not under way or the state field says complete |
| KCallDiscipline.InvThroughoutIff | FFOS/kcall.h:111-192 | over every run of callers that may do anything, the invariant holds throughout if and only if every async call kept to that |
| KCallDiscipline.EarlyAsyncLosesCall | FFOS/kcall.h:79-119 | asking early hands back the arguments as a result; both queues then drain with the accepted, uncancelled submission never run and never handled |
| KCallDiscipline.CancelHidesWhere | FFOS/kcall.h:151-154 | after a cancel two reachable states differ only in whether the object still waits in the queue |
| KCallDiscipline.EarlyResubmitQueuesTwice | FFOS/kcall.h:156-163 | submitting a cancelled object before it is drained puts it in the submission queue twice |
| KCallCapacity.OverflowIff | FFOS/kcall.h:124-128 | some run makes the add to the completion queue fail if and only if there are more call objects than places in it |
| KCallCode.Kcall.Begin | FFOS/kcall.h:176-189 | the head of an async function on the overlaid fields does what the model step does |
| KCallCode.Queue.Add | FFOS/kcall.h:156-169 | insertion and semaphore post, or the operation code cleared and EAGAIN when the queue is full |
| KCallCode.Queue.CancelNow | FFOS/kcall.h:151-154 | clearing the operation code is the model's cancel step |
| KCallCode.Queue.Exec | FFOS/kcall.h:79-122 | running the operation and writing result, error and state over the arguments is the model's sequence of worker steps |
| KCallCode.ServedReached | FFOS/kcall.h:114-134 | a round of a worker is a run of the model and finds room in the completion queue |
| KCallCode.Queue.ProcessSq | FFOS/kcall.h:111-135 | the worker's drain loop is a run of the model that serves every queued call, in order: of the k-th, unless cancelled, the system was asked what was submitted, its k-th answer lies over the arguments, and the object is in the completion queue; a cancelled one is dropped, an event posted if the queue was empty, and nothing else changes |
| KCallCode.Queue.WaitSq | FFOS/kcall.h:32-34 | waiting takes one count off the semaphore |
| KCallCode.Queue.ProcessCq | FFOS/kcall.h:138-149 | the completion loop is a run of the model that frees every completed call, calls in order the handlers of those not cancelled, and changes nothing else |
| KCallCode.Queue.WaitCq | FFOS/queue.h:231-239 | the event is consumed before the queue is looked at |
| IoVectors.ShiftDropsFront | FFOS/socket.h:1075-1089 | shifting n bytes makes the concatenation of the vectors the original with n bytes dropped |
| IoVectors.ShiftsAdd | FFOS/socket.h:1077-1089 | shifting m and then n gives vector by vector what shifting m + n gives |
| IoVectors.Shift | FFOS/socket.h:869-875 | the bytes of one vector lose their first m, where m, the smaller of n and their number, is returned; its memory and end stay, and no other vector changes |
| IoVectors.ArrayShift | FFOS/socket.h:1077-1089 | the in-place loop gives exactly the shifted vectors, touches none past the count, and reports something left if and only if fewer bytes were skipped than there are |
| IoVectors.SendRounds | FFOS/socket.h:1075-1089 | over any partial writes, what went out followed by what is left is the original, and as much went out as the writes were ready to take; when nothing is left exactly the original went out |
| AsyncSend.SendAsync | FFOS/socket.h:407-439 | per answer of the system, counts and error codes included: what is replied, what is sent, what is handed over and which task stays active; a call on an active task ignores the bytes it is given |
| AsyncSend.SendvAsync | FFOS/socket.h:441-483 | the same for vectors, with nothing sent when all are empty |
| AsyncSend.FirstOf | FFOS/socket.h:462-470 | the byte handed over is the first of the concatenation, taken from the first non-empty vector |
| AsyncSend.CallKeepsStep | FFOS/socket.h:1035-1041 | a call that presents the unconfirmed remainder keeps the system at the confirmed bytes plus the one handed over |
| AsyncSend.SendStream | FFOS/socket.h:1035-1041 | whatever the system answers over any number of calls, what it accepted is the confirmed prefix followed, exactly while a task is active, by the next byte; the prefix is as long as the answers confirm, so enough of them bring everything across |
| AsyncSend.SendvStream | FFOS/socket.h:441-483 | the same for vectors shifted in place by what was confirmed |
| AsyncSend.EnoughAnswers | FFOS/socket.h:1035-1041 | every answer that confirms something brings at least one byte across |
| AsyncSend.ChangedDataIff | FFOS/socket.h:1035-1041 | over any calls with any data, what the system delivered is what the caller believes it sent if and only if, whenever a task is confirmed, the data presented still starts with the byte handed over |
| AsyncSend.SendAny | FFOS/socket.h:407-439 | the code driven by a caller that presents anything at each call: each reply is the one the answers lead to, the system took exactly what the calls say, and the condition above decides whether the caller is right |
| AsyncSend.NewFirstByteIsIgnored | FFOS/socket.h:1040-1041 | a byte put in front while a task is active is ignored and the old one sent |
| TimerThread.RunKeepsInv | FFOS/timer.h:74-155 | the handshake invariant holds over every interleaving of caller and timer thread |
| TimerThread.WaitingIsExclusive | FFOS/timer.h:122-140 | a waiting caller has exactly one of request signalled, command executing, result signalled, and each result returned belongs to its own command |
| TimerThread.NeverStuck | FFOS/timer.h:78-140 | while a command is under way some step of the two threads is possible |
| TimerThread.BoundedWait | FFOS/timer.h:78-155 | a command or close is over after at most nine such steps, however often the timer fires meanwhile |
| TimerThread.NoCallbackAfterStopOrClose | FFOS/timer.h:102-155 | no callback runs after a successful stop until the next start, none once closing has begun, and after close no step is possible |
| TimerThread.RecordsAreTrue | FFOS/timer.h:122-194 | over every run the commands recorded are those given, with their periods, and the results those the system answered |
| TimerThread.ArmedAsCommanded | FFOS/timer.h:94-106 | over every run, until closing, the timer is armed exactly as the last successful command says: after a start with the due time and period it asked for, unless it was for a single callback that has come, and not after a stop; so a callback still owed is possible whenever the thread sleeps |
| TimerThread.NotArmedUnasked | FFOS/timer.h:94-106 | a timer that no command has started successfully is not armed |
| TimerThread.SingleCallback | FFOS/timer.h:96-97 | a timer last started with a period that is not positive calls back at most once |
| TimerThread.DelayAsDocumentedIff | FFOS/timer.h:95-97 | the first callback comes after the magnitude of the period if and only if the period is not negative or system time is zero |
| TimerThread.NegativePeriodFiresAtOnce | FFOS/timer.h:95-97 | for every negative 32-bit period and any system time after January 1601 it comes at once |
| DirOrder.CmpZeroIffEqual | FFOS/dirscan.h:40-64 | the comparator is zero if and only if the names are equal |
| DirOrder.CmpAntisymmetric | FFOS/dirscan.h:40-64 | swapping the names negates it |
| DirOrder.CmpTransitive | FFOS/dirscan.h:40-64 | it is transitive, hence with the two above a total order |
| DirOrder.Compare | FFOS/dirscan.h:40-64 | the loop over NUL-terminated strings computes the order described below |
| DirOrder.FirstDifferenceDecides | FFOS/dirscan.h:46-58 | the first different byte decides, by letter regardless of case and, for the two cases of one letter, the small one first, whatever follows |
| DirOrder.PrefixComesFirst | FFOS/dirscan.h:46-61 | without a difference the shorter name comes first |
| DirOrder.SortedIsUnique | FFOS/dirscan.h:66-75 | two sorted arrangements of the same names are equal |
| DirScan.PackedLists | FFOS/dirscan.h:203-219 | names followed by their encoded offsets list the names in the order of the offsets |
| DirScan.NamesOfPermutation | FFOS/dirscan.h:212-213 | rearranging offsets rearranges the names and loses none |
| DirScan.Collect | FFOS/dirscan.h:189-209 | the reading loop packs exactly the accepted names and records where each starts |
| DirScan.Scan.Open | FFOS/dirscan.h:150-222 | a successful open lists every name as often as the directory yields it if it is wanted, that is, matches the wildcard and is not "." or ".." unless asked for, and no other; sorted, or as a subsequence in reading order without sorting; a failed one changes nothing, except index when only the offsets find no room |
| DirScan.Scan.Next | FFOS/dirscan.h:246-255 | returns the next name of the list, and nothing at its end |
| DirScan.Scan.Reset | FFOS/dirscan.h:257-260 | goes back to the first name |
| DirScan.ReadTwice | FFOS/dirscan.h:246-260 | reading to the end yields the whole list, and after a reset the same again |
| DirScan.OpenBoth | FFOS/dirscan.h:189-222 | two scans of the same entries, yielded in different orders, list the same |
| CmdLine.ArgvToCmdLine | FFOS/process.h:57-98 | succeeds exactly when memory suffices, all arguments convert and none has a quote; then the buffer, of the measured size, holds the line and its terminator |
| CmdLine.RoomForNext | FFOS/process.h:59-67 | before every argument the measured buffer still has room for its conversion, quotes, space and terminator |
| CmdLine.PutArg | FFOS/process.h:82-91 | one argument is printed, in quotes if it has a space, inside the measured size |
| CmdLine.ThreeArguments | FFOS/process.h:51-56 | the documented form: single spaces between arguments, double quotes around one that has a space |
| CmdLine.SplitIsLeftInverseIff | FFOS/process.h:51-98 | splitting the line at unquoted spaces gives the arguments back, empty ones included, if and only if there is one |
| CmdLine.EmptyLists | FFOS/process.h:92-94 | the empty list and the list of one empty argument both print as the empty line |
| CmdLine.PrintingIsInjectiveIff | FFOS/process.h:51-98 | two lists of quote-free arguments print the same line if and only if they are equal or are the two lists above |

## Left out

- Wrappers of one system call each (files, pipes, semaphores, processes, registry, volumes, libraries, file mapping): nothing to prove beyond the call's contract.
- ffbase code (tree balancing, sorting, ring queues, wildcards, UTF conversion) is not part of this model; it enters as contracts: relinking keeps the listing, sorting gives a sorted rearrangement, ring queues are atomic bounded queues, a wildcard is any predicate, a conversion reports its length or fails.
- Colours and balance of the timer tree: only the listing matters to the queue.
- Weak memory: the steps of the kernel call queue and of the timer thread are atomic and interleaved; fences are not modelled.
- TimerQueue.TimerQueue.Process: function pointers are abstracted to the commands each callback issues; callbacks that enter another drain are covered by `TimerRun`, not by this method.
- PathTheorems.MeaningPreserved: is stated without disk letters; `MeaningWithDrivesIff` is the statement with them, where a path led by a drive means the same from every current place.
- DirScan.Scan.Open: asks that the names pack into less than 2^32 bytes, since offsets are 32-bit and the code does not check; the Windows reading loop is not modelled, nor is case-insensitive comparison.
- KCallCode.Kcall.Begin: the synchronous branch for an object without a queue calls the system directly and is not modelled.
- KCallCode.Queue.ProcessSq: runs by itself; other threads acting in between are covered by `KCallQueue`, whose steps are the same.
- KCallProgress.EveryCallIsAnswered: is stated for queues with a semaphore and an event; without them the threads poll and need not come to rest.
- KCallQueue.EveryRunIsSafe: assumes async calls only on free or completed objects, the condition `InvThroughoutIff` shows to be exact, and that a caller inside its own async call makes no other on the same object.
- AsyncSend.SendAsync: a failed overlapped write or poll is taken to have delivered nothing; that no byte is duplicated after an error rests on this.
- AsyncSend.SendvAsync: the same holds for it.
- CmdLine.PrintingIsInjectiveIff: assumes the conversion to wide characters keeps distinct arguments distinct and keeps spaces and quotes.
- TimerThread.RunKeepsInv: one commanding thread; failures of the event calls themselves are not modelled.
- TimerThread.ArmedAsCommanded: when the callbacks of a periodic timer come is not modelled, only whether one is possible.
- Path splitting helpers, environment and time functions, netlink and file monitoring: true but easier, or resting on definitions outside the repository.
