# Verification of the hard parts of an Axon 7 device tree

This project models six components of the device tree in Dafny and proves what they are for. Each
component is modelled in the form in which it is written, as classes and loops where the source
updates state in place. Beside that form stands a function or a state machine that the methods are
proved equal to, and the main results are stated about it for every input, run or interleaving.

| component | modules | main results |
|---|---|---|
| Boyer-Moore search | `BoyerMoore` | the exact set of patterns for which the search is right on every text; the final good-suffix table holds least shifts; a one-line repair makes it right for every pattern |
| heap | `HeapTree`, `LocHeap` | order, sizes and contents over every run; draining sorts; removal by identity finds exactly what is there; pushes alone keep the tree balanced |
| timer service | `TimerOrder`, `LocTimerSpec`, `LocTimerPass`, `LocTimer`, `LocTimerSteps`, `LocTimerStarts` | in every interleaving no timer that a client started is forgotten past its delay, and one that is due is called back; and each delegate is pushed, deleted and answered at most once; exactly when an expire pass calls back a timer ahead of time |
| AGPS state machine | `AgpsSpec`, `AgpsLaws`, `Agps` | the list invariant, the balance of framework requests and one final callback per subscription, over every run; exactly what a modem restart breaks and what repairs it |
| amplifier worker | `AmplifierSpec`, `AmplifierCalls`, `Amplifier` | no update is lost in any interleaving: in normal mode the amplifier follows the state, and over all modes exactly when it does whatever its library does; exactly when closing ends |
| linked list, tracking sessions | `LinkedList`, `LinkedListMix`, `Tracking` | the pointer list refines a sequence under any mix of operations; the incremental rule for the fastest session agrees with the minimum |

`Wrappers` and `Counting` hold an option type and a count of values in a sequence.
`dafny verify dfyconfig.toml` verifies the whole project.

## What the code does otherwise than it says

- The prefix test of the search (recovery/recovery_updater.cpp:75) looks at the suffix from `p` on, but
  line 76 records the shift for the suffix after `p`. For patterns without NUL bytes the search is
  therefore right on every text if and only if no proper suffix of the pattern is also a prefix, or
  the pattern repeats one byte (`BoyerMoore.SearchCorrectIff`).
- The first pop of an expire pass is not guarded by the time (gps/utils/LocTimer.cpp:369), and
  `updateSoonestTime(NULL)` on an empty heap finds no change and so never disarms the fd (282-291). A
  stale expiry can call a timer back early (`LocTimerPass.TimerCanFireEarly`). In every run an early
  callback is that of the first timer of its pass (`LocTimerSpec.OnlyFirstFiresEarly`), and a pass makes
  a callback ahead of its "now" if and only if the top of the heap is ahead when the expiry is handled
  and still has a client when its `expire()` looks for it (`LocTimerPass.PassCallsAheadIff`).
- The comment in gps/utils/LocTimer.cpp:372 has a delegate deleted before its `expire()` returns. It is
  deleted when its remove message is handled, after the pass.
- Routing to device LAST passes the range test `devices > LAST` (audio_amplifier/audio_amplifier.c:398)
  and leaves an `in_device` that is outside `enableds` (`AmplifierSpec.RoutingStaysInRangeIff`).
- Closing the amplifier can hang: a round that takes the token of the close and then calls
  `ex_speaker_on` retries for ever if that keeps failing. A close ends whatever the library answers if and
  only if, when it comes, the worker has already taken its tokens for the copy, or the state does not make
  the round call `ex_speaker_on` (`AmplifierSpec.ClosingEndsIff`).
- A round in bypass mode copies a new device without setting it, so that a later normal round does not
  set it either (`AmplifierSpec.StaleDeviceAfterBypass`). At the end of a schedule the amplifier follows
  the state whatever the library did if and only if the last round was a normal one, or a legacy one that
  called `ex_speaker_on`, and no bypass round came since one that set the amplifier up
  (`AmplifierSpec.NoUpdateIsLostIff`). In normal mode throughout it always does
  (`AmplifierSpec.NormalModeFollows`).
- A modem restart empties the subscriber list and leaves the state (gps/gnss/Agps.cpp:887-900). After one
  while ACQUIRED the next subscriber is told of an open connection for which nothing was requested
  (`AgpsSpec.RestartGivesStaleOpen`).
- The restart of sessions after an engine-up event does not look at the answer of the start
  (gps/gnss/GnssAdapter.cpp:1123): sessions and hardware agree afterwards if and only if it did not fail. If it
  failed, a new session that is not the fastest is answered with success over stopped hardware
  (`Tracking.GnssAdapter.StartTrackingMessage`).

## Model

| member | source | states |
|---|---|---|
| BoyerMoore.MaxSuffixLen | recovery/recovery_updater.cpp:44-52 | the longest suffix, at most p bytes, that also ends at str[p]: the bytes agree and the next pair, if any, differs |
| BoyerMoore.MakeDelta1 | recovery/recovery_updater.cpp:57-66 | each entry is the distance from the last byte of the pattern to the rightmost earlier occurrence of the byte |
| BoyerMoore.LastIndexIsLast | recovery/recovery_updater.cpp:62-65 | the occurrence behind a delta1 entry is the rightmost one, although earlier positions were written first |
| BoyerMoore.Delta1IsDistance | recovery/recovery_updater.cpp:53-66 | an entry is the distance from the last byte back to the nearest earlier occurrence of the byte, or the length if there is none |
| BoyerMoore.FillFromPrefixes | recovery/recovery_updater.cpp:73-79 | after the first loop every entry stands for the shift of the prefix last seen |
| BoyerMoore.StrncmpSeesBorders | recovery/recovery_updater.cpp:75 | the strncmp test sees every suffix that is a prefix, and nothing else when the pattern has no NUL |
| BoyerMoore.StrncmpIsZeroIff | recovery/recovery_updater.cpp:75 | the test passes exactly if the strings agree up to the end or to a NUL of both |
| BoyerMoore.LastPrefixIsFirst | recovery/recovery_updater.cpp:71-79 | last_prefix is one more than the first position from there on whose suffix passes, and the length less one if none does |
| BoyerMoore.SuffixRound | recovery/recovery_updater.cpp:81-87 | a round writes exactly the entry whose suffix re-occurs at its shift after a different byte; every other entry keeps its meaning |
| BoyerMoore.OverwriteFromSuffixes | recovery/recovery_updater.cpp:81-87 | rounds with smaller shifts overwrite larger ones, so that each entry ends with its least shift |
| BoyerMoore.MakeDelta2 | recovery/recovery_updater.cpp:69-88 | for every re-occurrence of a suffix after a different byte, the final entry encodes such a re-occurrence, and the nearest one |
| BoyerMoore.Shifts | recovery/recovery_updater.cpp:69-88 | each delta2 entry stands for a window shift between 1 and the pattern length |
| BoyerMoore.ScanWindow | recovery/recovery_updater.cpp:103-107 | the backward scan stays inside text and pattern and stops at the last position at which the window differs, or before the window |
| BoyerMoore.MismatchIsLast | recovery/recovery_updater.cpp:103-107 | everything behind the mismatch agrees |
| BoyerMoore.Scan | recovery/recovery_updater.cpp:101-114 | the loop over the index i, with its increments, visits the windows of the search function and ends |
| BoyerMoore.BmSearch | recovery/recovery_updater.cpp:90-117 | a hit is a real occurrence for every pattern and text; for border-free and for one-byte patterns the result is the first occurrence, and NULL exactly when there is none |
| BoyerMoore.NoMatchIsPassed | recovery/recovery_updater.cpp:111 | the jump by the maximum of both tables never passes an occurrence, for any table with no entry beyond a possible match |
| BoyerMoore.SafeSearchFindsFirst | recovery/recovery_updater.cpp:101-116 | with such a table the search gives the first occurrence on every text |
| BoyerMoore.HitIsOccurrence | recovery/recovery_updater.cpp:108-110 | a returned position holds the pattern, whatever the table |
| BoyerMoore.SourceTableSafe | recovery/recovery_updater.cpp:69-88 | the source's table is such a table for every pattern without borders and every pattern of one repeated byte |
| BoyerMoore.ShiftAtOne | recovery/recovery_updater.cpp:75-78 | for a bordered pattern the entry for a mismatch at 1 is one larger than its period |
| BoyerMoore.BorderedPatternMissed | recovery/recovery_updater.cpp:75-116 | each other bordered pattern is missed in a text that contains it |
| BoyerMoore.SearchCorrectIff | recovery/recovery_updater.cpp:90-117 | the exact condition for the search to be right on every text |
| BoyerMoore.AbaMissedInXcaba | recovery/recovery_updater.cpp:75-76 | "aba" occurs in "xcaba" and is not found |
| BoyerMoore.VersionStringFound | recovery/recovery_updater.cpp:37-117 | the one pattern the updater uses is found where it first occurs in any text, and not found only where it is absent |
| BoyerMoore.RepairedPrefixLeast | recovery/recovery_updater.cpp:73-79 | with the suffix after p tested, the recorded shift is at most that of any border |
| BoyerMoore.RepairedSearchFindsFirst | recovery/recovery_updater.cpp:73-117 | with that repair the search is right for every non-empty pattern and every text |
| HeapTree.Push | gps/utils/LocHeap.cpp:107-124 | the new top is the higher-ranking of the old top and the pushed datum |
| HeapTree.TopRanksHighest | gps/utils/LocHeap.cpp:135-136 | nothing in an ordered heap outranks its top |
| HeapTree.PushConserves | gps/utils/LocHeap.cpp:107-124 | a push adds the datum once and keeps every other as often as it was |
| HeapTree.PushCounts | gps/utils/LocHeap.cpp:107-124 | a push adds one node and keeps mSize equal to the node count in every sub-tree |
| HeapTree.PushOrders | gps/utils/LocHeap.cpp:100-106 | a push keeps the tree sorted by rank |
| HeapTree.PopIgnoresTop | gps/utils/LocHeap.cpp:153-155 | what a pop leaves does not depend on the datum that is being handed down |
| HeapTree.PopConserves | gps/utils/LocHeap.cpp:134-165 | a pop takes the top datum out once and loses nothing else |
| HeapTree.PopCounts | gps/utils/LocHeap.cpp:134-165 | a pop takes one node and keeps every mSize right |
| HeapTree.PopOrders | gps/utils/LocHeap.cpp:126-165 | a pop restores the order of a tree of which only the sub-trees are in order |
| HeapTree.PopStaysBelow | gps/utils/LocHeap.cpp:134-165 | nothing a pop leaves outranks the popped datum |
| HeapTree.RemoveFinds | gps/utils/LocHeap.cpp:170-193 | remove finds a datum if and only if it is in the heap, although it skips the sub-trees whose top the datum outranks |
| HeapTree.RemoveConserves | gps/utils/LocHeap.cpp:170-193 | exactly one copy of the datum goes and everything else stays |
| HeapTree.RemoveCounts | gps/utils/LocHeap.cpp:170-193 | one node goes and every mSize stays right |
| HeapTree.RemoveOrders | gps/utils/LocHeap.cpp:170-193 | removal keeps the tree sorted by rank |
| HeapTree.CheckNodesIff | gps/utils/LocHeap.cpp:195-220 | the consistency check answers true if and only if the whole tree is in order with every mSize right |
| HeapTree.RunPreserves | gps/utils/LocHeap.cpp:107-193 | order and sizes hold after every sequence of pushes, pops and removes |
| HeapTree.RunConserves | gps/utils/LocHeap.cpp:107-193 | over every sequence, each datum is in the heap or was handed back, as often as it was pushed |
| HeapTree.PopsHighest | gps/utils/LocHeap.cpp:245-254 | in every run a pop hands back a datum that nothing in the heap outranks |
| HeapTree.DrainConserves | gps/utils/LocHeap.cpp:245-254 | popping until empty gives back exactly the contents |
| HeapTree.DrainSorts | gps/utils/LocHeap.cpp:245-254 | and in the order of rank |
| HeapTree.RunThenDrain | gps/utils/LocHeap.cpp:107-254 | after any run, popping until empty gives a rank-sorted permutation of what was pushed and not handed back |
| HeapTree.PushKeepsBalance | gps/utils/LocHeap.cpp:113-122 | left size minus right size stays 0 or 1 at every node |
| HeapTree.BalancedIsShallow | gps/utils/LocHeap.cpp:101-102 | such a tree of height h has at least 2^(h-1) nodes |
| HeapTree.PushDepthWithinHeight | gps/utils/LocHeap.cpp:113-122 | a push recurses no deeper than the tree is high |
| HeapTree.PushesStayBalanced | gps/utils/LocHeap.cpp:107-124 | a heap grown by n pushes is balanced and holds n nodes |
| HeapTree.PushOnlyHeapIsShallow | gps/utils/LocHeap.cpp:107-124 | after n pushes the height, and the nested calls that the node's push counts, are at most floor(log2 n) + 1 |
| LocHeap.LocHeapNode.Swap | gps/utils/LocHeap.cpp:87-92 | the two nodes exchange their data and nothing else |
| LocHeap.LocHeapNode.Settle | gps/utils/LocHeap.cpp:108-111 | the node ends with the higher-ranking datum, the incoming one with the other |
| LocHeap.LocHeapNode.Push | gps/utils/LocHeap.cpp:107-124 | the pointer tree becomes the pushed tree in place, with the incoming node and no other added, in as many nested calls as the push depth of the tree says |
| LocHeap.LocHeapNode.Drop | gps/utils/LocHeap.cpp:113-123 | the node drops to the missing or smaller side, left first on a tie |
| LocHeap.LocHeapNode.Pop | gps/utils/LocHeap.cpp:134-165 | the top is never replaced but for the last node; a leaf leaves with the old top datum, and the others form the popped tree |
| LocHeap.LocHeapNode.Remove | gps/utils/LocHeap.cpp:170-193 | NULL exactly when the datum is not found, and then nothing changed; else one node leaves with that datum |
| LocHeap.LocHeapNode.CheckNodes | gps/utils/LocHeap.cpp:197-220 | the early returns answer the check on the whole tree |
| LocHeap.LocHeap.Push | gps/utils/LocHeap.cpp:228-235 | the heap becomes the pushed tree, on fresh nodes only |
| LocHeap.LocHeap.Peek | gps/utils/LocHeap.cpp:237-243 | the top datum, or NULL exactly for an empty heap |
| LocHeap.LocHeap.Pop | gps/utils/LocHeap.cpp:245-254 | the old top datum and the popped tree; an empty heap gives NULL and stays empty |
| LocHeap.LocHeap.Remove | gps/utils/LocHeap.cpp:256-267 | the datum itself if it was found and taken out, else NULL and no change |
| TimerOrder.RanksIsOrder | gps/utils/LocTimer.cpp:508-522 | with the conversions to int, ranks is exactly the order of (seconds, nanoseconds) for times below 2^31 seconds |
| TimerOrder.RanksTurnsRound | gps/utils/LocTimer.cpp:514 | that bound cannot be raised: 2^31 seconds apart, the earlier time ranks lower |
| TimerOrder.FutureTimeIsExact | gps/utils/LocTimer.cpp:556-562 | start adds the delay to the nanosecond and computes a normalised time that can be ranked, for every delay while the boot time is below 2^31 - 4294968 seconds |
| TimerOrder.TimersRankConsistently | gps/utils/LocTimer.cpp:508-522 | the heap's assumption on its ranking holds of timers |
| LocTimerSpec.PushKeepsFd | gps/utils/LocTimer.cpp:320-324 | after a push the fd is armed for the top, or the message task is about to arm it, or an expiry is in flight |
| LocTimerSpec.RemoveKeepsFd | gps/utils/LocTimer.cpp:338-349 | the same after a removal, of the top or of another timer |
| LocTimerSpec.StepKeepsFd | gps/utils/LocTimer.cpp:282-384 | a non-empty heap has the fd polled and armed at its top's time, or about to be, or an expiry in flight, after every step of either thread and of the clients |
| LocTimerSpec.StepKeepsOrder | gps/utils/LocTimer.cpp:312-393 | every step keeps the timer heap in order |
| LocTimerSpec.StepKeepsFifo | gps/utils/LocTimer.cpp:312-352 | in the queue a delegate's push message is ahead of its remove message |
| LocTimerSpec.StepKeepsLinks | gps/utils/LocTimer.cpp:490-590 | a client's timer and a delegate's client point at each other |
| LocTimerSpec.StepKeepsKnown | gps/utils/LocTimer.cpp:312-384 | messages, heap and expire pass only ever hold delegates that start created |
| LocTimerSpec.StepKeepsAccount | gps/utils/LocTimer.cpp:312-590 | every step keeps each delegate's account: one push, one remove message, one place while it ticks, none once deleted, one answer |
| LocTimerSpec.StepKeepsPass | gps/utils/LocTimer.cpp:363-376 | a pass always has a "now" that the ranking can compare and that is past, and what it popped after its first timer was due then |
| LocTimerSpec.StepKeepsInv | gps/utils/LocTimer.cpp:282-590 | the joint invariant is kept by every atomic step |
| LocTimerSpec.RunKeepsInv | gps/utils/LocTimer.cpp:282-590 | and holds, with every account, in every interleaving from the start |
| LocTimerSpec.NoTimerIsForgotten | gps/utils/LocTimer.cpp:282-384 | in every interleaving a ticking timer has its push queued, or an expiry is in flight, or the fd wakes the poll thread no later than its time |
| LocTimerSpec.DelegateLivesOnce | gps/utils/LocTimer.cpp:312-590 | over every run a delegate is pushed and deleted at most once, in that order, is kept nowhere afterwards, and has its callback or a successful stop, never both and never twice |
| LocTimerSpec.OnlyFirstFiresEarly | gps/utils/LocTimer.cpp:369-374 | in every run a callback made before its time is that of the first timer popped by its pass, and was ahead of the pass's "now" |
| LocTimerSpec.PassLeavesOnlyLater | gps/utils/LocTimer.cpp:357-377 | in every state that a run reaches, an expire pass ends with only timers later than its "now" in the heap |
| LocTimerSpec.PassPopsOnlyDue | gps/utils/LocTimer.cpp:369-371 | in every state that a run reaches, a timer that a pass pops after the first was due at its "now" |
| LocTimerPass.PopDueSplits | gps/utils/LocTimer.cpp:371-393 | the guarded pops take out exactly the due timers, each once, and leave the heap in order |
| LocTimerPass.PassSplits | gps/utils/LocTimer.cpp:369-377 | a whole pass loses no timer, leaves only later ones and pops only due ones after the first |
| LocTimerPass.PassIsPunctualIff | gps/utils/LocTimer.cpp:369-371 | the pops of a pass are all of due timers if and only if the heap is empty or its top is due; callbacks are the matter of the next row |
| LocTimerPass.PassCallsAheadIff | gps/utils/LocTimer.cpp:357-377 | among any steps of the others, a pass calls back a timer ahead of its "now" if and only if the top of the heap is ahead and has a client when its expire() runs; it pops what the specified pass pops, leaves that heap and calls back only what it popped |
| LocTimerPass.StoppedTimerLeavesFdArmed | gps/utils/LocTimer.cpp:282-291 | a run that stops its only timer ends with an armed and polled fd over an empty heap |
| LocTimerPass.StaleExpiryIsQueued | gps/utils/LocTimer.cpp:357-384 | that fd fires and its expiry is queued behind the push of a much later timer |
| LocTimerPass.TimerCanFireEarly | gps/utils/LocTimer.cpp:369-374 | a run in which that timer's callback is called before its time |
| LocTimer.LocTimerContainer.UpdateSoonestTime | gps/utils/LocTimer.cpp:282-308 | the fd is polled and armed for a new or earlier top, left alone otherwise, and the heap is not touched |
| LocTimer.LocTimerContainer.ProcPush | gps/utils/LocTimer.cpp:320-324 | the handler is the push step of the state machine followed by its fd steps |
| LocTimer.LocTimerContainer.ProcRemove | gps/utils/LocTimer.cpp:338-346 | the same for removal, the fd being reconsidered exactly when the removed timer was the top, or neither exists |
| LocTimer.LocTimerContainer.PopIfOutRanks | gps/utils/LocTimer.cpp:386-393 | pops the top unless now outranks it |
| LocTimer.LocTimerContainer.ExpireDelegate | gps/utils/LocTimer.cpp:373 | the popped delegate's client is called back exactly if it still has one; then it has none and its remove message is queued |
| LocTimer.LocTimerContainer.ProcExpire | gps/utils/LocTimer.cpp:363-377 | the loop expires the timers of the specified pass in its order, calls back exactly those that have a client, once each, queues their remove messages in that order, leaves the specified heap, and then reconsiders the fd |
| LocTimer.LocTimerContainer.Expire | gps/utils/LocTimer.cpp:380-384 | the poll thread leaves the fd disarmed and unpolled and one expiry queued |
| LocTimer.LocTimerDelegate.constructor | gps/utils/LocTimer.cpp:478-487 | a delegate knows its client and queues its one push message |
| LocTimer.LocTimerDelegate.DestroyLocked | gps/utils/LocTimer.cpp:490-506 | client and container are forgotten, and only the first call queues a remove message |
| LocTimer.LocTimerDelegate.Expire | gps/utils/LocTimer.cpp:525-537 | the callback is called exactly when the delegate still had a client, which is then stopped |
| LocTimer.LocTimer.Start | gps/utils/LocTimer.cpp:552-575 | succeeds exactly for a client without timer and with a container, with one new delegate of the right time; else changes nothing |
| LocTimer.LocTimer.Stop | gps/utils/LocTimer.cpp:577-590 | succeeds exactly when a timer was running, which loses its client and has its remove message queued |
| LocTimerSteps.PushIsTaskSteps | gps/utils/LocTimer.cpp:320-324 | the steps that the message task takes for a push message do what the handler promises |
| LocTimerSteps.RemoveIsTaskSteps | gps/utils/LocTimer.cpp:338-349 | the same for a remove message |
| LocTimerSteps.PassIsTaskSteps | gps/utils/LocTimer.cpp:363-377 | the same for a whole expire pass with nobody else acting: heap, fd, remove messages and callbacks are those that the handler promises |
| LocTimerSteps.PollIsSteps | gps/utils/LocTimer.cpp:379-384 | the four steps of the woken poll thread leave the fd disarmed and unpolled and one expiry queued, and nothing else changed |
| LocTimerStarts.StartAdds | gps/utils/LocTimer.cpp:552-575 | a start by a client without timer makes one timer, due to the nanosecond after the delay asked for, and queues its push message; another start changes nothing |
| LocTimerStarts.StopTakes | gps/utils/LocTimer.cpp:577-590 | a stop takes the timer from its client and queues its remove message, or changes nothing |
| LocTimerStarts.StartLasts | gps/utils/LocTimer.cpp:478-590 | over every run the timer of a start keeps its due time, belongs to the client that started it and calls back no other |
| LocTimerStarts.EveryTimerWasStarted | gps/utils/LocTimer.cpp:552-575 | every timer of a run is that of one start by a client without timer |
| LocTimerStarts.NoStartIsForgotten | gps/utils/LocTimer.cpp:282-384 | in every interleaving the timer of a start was called back or stopped, or has its push queued, or an expiry is under way, or the fd wakes the poll thread no later than after the delay that was asked for |
| LocTimerStarts.OnlyFirstFiresBeforeItsDelay | gps/utils/LocTimer.cpp:369-374 | in every interleaving a callback is for the client that started the timer, and one before the delay has passed is for the first timer of its pass |
| LocTimerStarts.PollWakesIff | gps/utils/LocTimer.cpp:449-473 | the poll thread is woken exactly by a polled fd whose time has come |
| LocTimerStarts.DueTimerIsCalled | gps/utils/LocTimer.cpp:357-473 | in every interleaving, when all is quiet and a started timer's delay has passed, the poll thread can take its steps and the message task its pass, and that timer has then been called back |
| AgpsSpec.SubscribeKeepsInv | gps/gnss/Agps.cpp:72-114 | subscribing keeps the list invariant in every state |
| AgpsSpec.UnsubscribeKeepsInv | gps/gnss/Agps.cpp:116-178 | so does unsubscribing a handle on the list, by leaving or by waiting for the close |
| AgpsSpec.FinishKeepsInv | gps/gnss/Agps.cpp:219-235 | so does the end of a release, with active or without |
| AgpsSpec.StepKeepsInv | gps/gnss/Agps.cpp:72-290 | every event keeps it |
| AgpsSpec.RunKeepsInv | gps/gnss/Agps.cpp:72-448 | in every run without modem restart: RELEASED exactly with an empty list, an active subscriber in PENDING and ACQUIRED, an inactive one in RELEASING, handles unique |
| AgpsSpec.RestartKeepsInvIff | gps/gnss/Agps.cpp:887-900 | a modem restart keeps the list invariant if and only if the state is RELEASED |
| AgpsSpec.RestartHealsIff | gps/gnss/Agps.cpp:72-290 | exactly which next events bring the invariant back after a restart |
| AgpsSpec.RestartedRunKeepsInvIff | gps/gnss/Agps.cpp:72-513 | over every run with any modem restarts: handles stay unique, inactive subscribers wait for the close, RELEASED has an empty list; and the list invariant holds exactly in RELEASED, in RELEASING with an inactive subscriber, and in PENDING and ACQUIRED with any subscriber |
| AgpsSpec.RestartGivesStaleOpen | gps/gnss/Agps.cpp:97-103 | after a restart while ACQUIRED the next subscriber gets an open-success with no new request |
| AgpsSpec.StepBalances | gps/gnss/Agps.cpp:72-314 | each event changes requests minus releases as it changes whether a connection is owed |
| AgpsSpec.RequestsBalance | gps/gnss/Agps.cpp:72-314 | over every run, modem restarts included, requests minus releases minus the framework's own denials and terminations is 1 in PENDING and ACQUIRED and 0 otherwise |
| AgpsSpec.NotifyTells | gps/gnss/Agps.cpp:316-386 | notifying a choice of subscribers tells each of them once and nobody else |
| AgpsSpec.LeaveConserves | gps/gnss/Agps.cpp:125-137 | a subscriber told that it is closed leaves in that step; one that waits stays untold |
| AgpsSpec.StepConserves | gps/gnss/Agps.cpp:72-436 | per event and handle, entries joining the list minus those leaving it equal acceptances minus final callbacks |
| AgpsSpec.OneFinalCallbackEach | gps/gnss/Agps.cpp:72-436 | in every run without modem restart the final callbacks to a handle number exactly its accepted subscriptions that have left the list |
| AgpsSpec.StepTellsOpenOnce | gps/gnss/Agps.cpp:72-386 | every event keeps the open-success count of active subscribers right |
| AgpsSpec.RunTellsOpenOnce | gps/gnss/Agps.cpp:72-386 | in every such run an active subscriber has had no open-success unless ACQUIRED, and then one |
| AgpsLaws.GrantEffect | gps/gnss/Agps.cpp:180-201 | a grant in PENDING acquires the connection and tells each active subscriber, once per entry, that it is open, and nobody else; in another state it changes nothing |
| AgpsLaws.DenialEffect | gps/gnss/Agps.cpp:250-290 | a denial in PENDING tells everyone on the list that the opening failed, and empties it; in RELEASING it ends the release |
| AgpsLaws.CloseEffect | gps/gnss/Agps.cpp:203-248 | a close in ACQUIRED tells everyone on the list that the connection is closed, and empties it; in RELEASING it ends the release |
| AgpsLaws.FinishEffect | gps/gnss/Agps.cpp:219-235 | the end of a release tells the inactive subscribers that it is closed and lets them go; the active ones stay in order, and have the connection requested again if there are any |
| AgpsLaws.SubscribeEffect | gps/gnss/Agps.cpp:72-114 | a subscription joins the list unless its handle is there, requests the connection in RELEASED, and is told that it is open in ACQUIRED |
| AgpsLaws.UnsubscribeEffect | gps/gnss/Agps.cpp:116-178 | a subscriber that waits for the close becomes inactive and is told nothing, another leaves and is told that it is closed; the connection is given up when nobody active is left |
| AgpsLaws.OtherEffects | gps/gnss/Agps.cpp:502-513 | a restart empties the list and does nothing else |
| AgpsLaws.ActiveIff | gps/gnss/Agps.cpp:72-290 | over every run without restart a handle is active exactly if it was subscribed, not while still waiting for a close, and since then neither released nor denied in PENDING nor closed in ACQUIRED |
| AgpsLaws.AcquiredIff | gps/gnss/Agps.cpp:72-290 | over every run without restart the machine is ACQUIRED exactly if it took a grant in PENDING and since then was not closed and always had an active subscriber |
| Agps.AgpsStateMachine.AddSubscriber | gps/gnss/Agps.cpp:398-417 | the subscriber is appended unless its handle is on the list |
| Agps.AgpsStateMachine.DeleteSubscriber | gps/gnss/Agps.cpp:419-436 | erasing while walking takes exactly the entries of that handle and keeps the order of the others |
| Agps.AgpsStateMachine.AnyActiveSubscribers | gps/gnss/Agps.cpp:438-448 | true if and only if some subscriber is active |
| Agps.AgpsStateMachine.GetSubscriber | gps/gnss/Agps.cpp:472-485 | an entry of the handle, or NULL exactly when there is none |
| Agps.AgpsStateMachine.DropAllSubscribers | gps/gnss/Agps.cpp:502-513 | the list ends empty, and no callback or request is made |
| Agps.AgpsStateMachine.RequestOrReleaseDataConn | gps/gnss/Agps.cpp:296-314 | the framework gets one request or release, and the answer is always success |
| Agps.AgpsStateMachine.NotifyEventToSubscriber | gps/gnss/Agps.cpp:351-386 | the one callback of the event, and the subscriber's removal if asked for |
| Agps.AgpsStateMachine.NotifyAllSubscribers | gps/gnss/Agps.cpp:316-349 | the walk that erases as it goes tells the chosen in list order and keeps exactly the others |
| Agps.AgpsStateMachine.ProcessSubscribe | gps/gnss/Agps.cpp:72-114 | the handler leaves state, list, callbacks and requests as the state machine says |
| Agps.AgpsStateMachine.ProcessUnsubscribe | gps/gnss/Agps.cpp:116-178 | the same, in all four states |
| Agps.AgpsStateMachine.ProcessGranted | gps/gnss/Agps.cpp:180-201 | the same; only PENDING reacts |
| Agps.AgpsStateMachine.ProcessReleased | gps/gnss/Agps.cpp:203-248 | the same; ACQUIRED and RELEASING react |
| Agps.AgpsStateMachine.ProcessDenied | gps/gnss/Agps.cpp:250-290 | the same; PENDING and RELEASING react |
| Agps.AgpsStateMachine.ProcessAgpsEvent | gps/gnss/Agps.cpp:40-70 | every event is the state machine's step, so that the results over runs hold of the class |
| Agps.AgpsManager.CreateAgpsStateMachines | gps/gnss/Agps.cpp:703-737 | missing machines are created in their initial state, existing ones kept |
| Agps.AgpsManager.RequestATL | gps/gnss/Agps.cpp:739-796 | the AGNSS machine takes requests of the SUPL types and of the invalid type, the internet machine all others, and the other machine is untouched; without the machine, open-failed is told at once; only emergency requests wait for the close |
| Agps.AgpsManager.ReleaseATL | gps/gnss/Agps.cpp:798-830 | the first machine that has the handle takes the release; without one, close-failed is told |
| Agps.AgpsStateMachine.SetAPN | gps/gnss/Agps.cpp:450-470 | the name up to the given length, or none for NULL |
| Agps.AgpsManager.ReportAtlOpenSuccess | gps/gnss/Agps.cpp:850-867 | that machine keeps APN and bearer and takes the grant, and the other is untouched |
| Agps.AgpsManager.ReportAtlOpenFailed | gps/gnss/Agps.cpp:869-876 | that machine takes the denial, and the other is untouched |
| Agps.AgpsManager.ReportAtlClosed | gps/gnss/Agps.cpp:878-885 | that machine takes the close, and the other is untouched |
| Agps.AgpsManager.HandleModemSSR | gps/gnss/Agps.cpp:887-900 | both lists are emptied and neither state changes |
| Agps.Calls | gps/gnss/Agps.cpp:739-900 | over any sequence of manager calls each machine is the run of exactly the requests and reports of its own types, of the releases of handles that it holds, and of the restarts |
| Agps.MachinesKeepInv | gps/gnss/Agps.cpp:770-900 | so the list invariant holds of the machines of a manager, whatever was called |
| AmplifierSpec.RoutingStaysInRangeIff | audio_amplifier/audio_amplifier.c:389-419 | routing leaves in_device inside enableds if and only if the device is not LAST |
| AmplifierSpec.StepAnnounces | audio_amplifier/audio_amplifier.c:234-273 | a change that the worker has not copied always has a token on trigger_update |
| AmplifierSpec.StepSetsAmp | audio_amplifier/audio_amplifier.c:113-273 | after a finished round that switched it by known calls the amplifier is on as its copy wants, or the token that the round took is posted again; and it has the copied device if set_device was the last to choose it, whatever modes came before |
| AmplifierSpec.StepSeesClose | audio_amplifier/audio_amplifier.c:272-281 | a close is never overlooked by a worker that waits or ends a round |
| AmplifierSpec.StepKeepsInv | audio_amplifier/audio_amplifier.c:113-481 | every atomic step of a client, the worker or the closing thread keeps all of that |
| AmplifierSpec.RunKeepsInv | audio_amplifier/audio_amplifier.c:113-481 | it holds in every interleaving, whatever the library answers |
| AmplifierSpec.RoundsTell | audio_amplifier/audio_amplifier.c:234-273 | what is known of the amplifier after a run is what the control modes and copied states of its rounds say |
| AmplifierSpec.NoUpdateIsLost | audio_amplifier/audio_amplifier.c:113-481 | in every run, when the worker blocks with no token its copy is the shared state; the amplifier is on, in that mode, exactly when it should be if the last round was normal, or legacy with ex_speaker_on called, and has that device if no bypass round came since one that set the amplifier up |
| AmplifierSpec.ControlSwitches | audio_amplifier/audio_amplifier.c:267-269 | the control mode is looked up only at the end of a round whose device is not enabled |
| AmplifierSpec.NormalModeFollows | audio_amplifier/audio_amplifier.c:113-481 | in normal control mode, in every interleaving: when the worker blocks with no token after at least one round, its copy is the shared state, and the amplifier has its device and is on, in its mode, exactly if the device is enabled and there are streams or a call |
| AmplifierCalls.CallsMakeState | audio_amplifier/audio_amplifier.c:389-481 | over every run the state is told by the calls that were taken: streams by starts less standbys, the mode by the last set_mode, enableds per device and in_call by the last enabling, the device, in_device and orientation by the last routing |
| AmplifierCalls.NormalModeFollowsCalls | audio_amplifier/audio_amplifier.c:113-481 | and in normal mode, when the worker blocks after a round, so is the amplifier: the device of the last routing, on exactly if its last enabling enabled it and streams or a call device are on, in the mode set last |
| AmplifierSpec.NoUpdateIsLostIff | audio_amplifier/audio_amplifier.c:113-481 | the exact condition, over the control modes of the rounds: for every schedule that leaves the worker blocked after a round, the amplifier follows the state under every behaviour of the library if and only if the last round was normal, or legacy with ex_speaker_on called, and no bypass round came since one that set the amplifier up |
| AmplifierSpec.ScheduleDecides | audio_amplifier/audio_amplifier.c:113-273 | what the library leaves in the amplifier changes nothing else in a run |
| AmplifierSpec.LibraryDecides | audio_amplifier/audio_amplifier.c:140-202 | where that fails, the library's last free choice is what the amplifier has |
| AmplifierSpec.CloseWakesWorker | audio_amplifier/audio_amplifier.c:272-281 | once both tokens of a close are posted the worker does not block, and it ends only if closed |
| AmplifierSpec.CloseTerminates | audio_amplifier/audio_amplifier.c:234-281 | while closing, a worker that cannot hang is done within a bound of its own steps, whatever the library answers |
| AmplifierSpec.ClosingStep | audio_amplifier/audio_amplifier.c:113-273 | while closing the worker can always take a step, which brings one that cannot hang nearer to its end, and keeps one that may hang so when ex_speaker_on fails |
| AmplifierSpec.FailingCloseNeverEnds | audio_amplifier/audio_amplifier.c:120-127 | a worker that may hang is not done after any number of steps in which ex_speaker_on fails |
| AmplifierSpec.CloseEndsIff | audio_amplifier/audio_amplifier.c:113-281 | with the tokens of the close posted, the worker ends under every behaviour of the library if and only if it may not hang, for every point at which it can be |
| AmplifierSpec.ClosingLaterEndsIff | audio_amplifier/audio_amplifier.c:277-281 | from any state between the two posts of a close, the second post leaves a close that may hang if and only if the worker has then still to take the pending tokens and the state makes the round call ex_speaker_on |
| AmplifierSpec.ClosingNowEndsIff | audio_amplifier/audio_amplifier.c:277-281 | the same for both posts made at once |
| AmplifierSpec.ClosingEndsIff | audio_amplifier/audio_amplifier.c:277-281 | what a caller can see before closing: however many steps the worker takes between the posts, the close ends whatever the library answers if and only if the worker has taken its tokens for the copy or the state does not make the round call ex_speaker_on |
| AmplifierSpec.CloseCanHang | audio_amplifier/audio_amplifier.c:242-281 | a run from the start to a close after which the worker is never done while ex_speaker_on fails |
| AmplifierSpec.StaleDeviceAfterBypass | audio_amplifier/audio_amplifier.c:189-270 | a run in which the amplifier keeps a stale device after a round in bypass mode |
| Amplifier.Tfa9890Device.Open | audio_amplifier/audio_amplifier.c:502-567 | the device starts with everything off and no token |
| Amplifier.Tfa9890Device.SetOutputDevices | audio_amplifier/audio_amplifier.c:389-419 | the routing step for every device number: unknown ones go to the stereo speaker, the no-device call does nothing, every change posts one token, and the state leaves its range exactly for LAST |
| Amplifier.Tfa9890Device.EnableOutputDevices | audio_amplifier/audio_amplifier.c:421-440 | the enabling step: one entry of enableds changes and in_call follows call devices; a device without amplifier does nothing |
| Amplifier.Tfa9890Device.SetMode | audio_amplifier/audio_amplifier.c:442-461 | the mode step with its token |
| Amplifier.Tfa9890Device.OutputStreamStart | audio_amplifier/audio_amplifier.c:463-471 | one stream more, with a token |
| Amplifier.Tfa9890Device.OutputStreamStandby | audio_amplifier/audio_amplifier.c:473-481 | one stream fewer, with a token |
| Amplifier.Tfa9890Device.DrainUpdates | audio_amplifier/audio_amplifier.c:243 | every pending token is taken |
| Amplifier.Tfa9890Device.CopyState | audio_amplifier/audio_amplifier.c:248-263 | the copy is the whole shared state, and the amplifier is set up anew if device or orientation changed |
| LinkedList.Add | gps/utils/linked_list.c:109-153 | the item is prepended, and each error case leaves the list alone |
| LinkedList.Remove | gps/utils/linked_list.c:160-201 | the last item is taken, and each error case leaves the list alone |
| LinkedList.Empty | gps/utils/linked_list.c:208-220 | whether there is no item, or the error for a NULL handle |
| LinkedList.Flush | gps/utils/linked_list.c:227-257 | the list ends empty, and each item that came with a dealloc function is deallocated once, in order |
| LinkedList.Find | gps/utils/linked_list.c:283-286 | the first matching position, or none matches |
| LinkedList.Bypass | gps/utils/linked_list.c:294-306 | the neighbours of the element, or head and tail, are linked to each other, at both ends and in the middle |
| LinkedList.Unlink | gps/utils/linked_list.c:294-314 | exactly one element leaves, and prev and next stay mutual inverses |
| LinkedList.FindElement | gps/utils/linked_list.c:280-289 | the walk ends at the first matching element, or at none |
| LinkedList.Search | gps/utils/linked_list.c:264-323 | the first match is handed out, removed if asked for, and deallocated exactly if removed and not handed out; no element comes in |
| LinkedList.QueueIsFifo | gps/utils/linked_list.c:109-201 | adds and removes of the sequence, in any mix, are a first-in first-out queue |
| LinkedList.RunOnList | gps/utils/linked_list.c:109-201 | and so are any adds and removes on the pointer list itself: what was taken, followed by what is left from tail to head, is what was put |
| LinkedListMix.RunMix | gps/utils/linked_list.c:109-323 | any mix of adds, removes, searches and flushes on the pointer list does to its items, to what is handed out and to what is deallocated what it does to a sequence |
| LinkedListMix.MixConserves | gps/utils/linked_list.c:109-323 | over any mix every item added is still there, or was handed out as it left, or left otherwise and was then deallocated exactly once if it came with a dealloc function |
| LinkedListMix.ToDeallocateAppend | gps/utils/linked_list.c:227-257 | what is deallocated of a list is what is of its parts, in order |
| LinkedListMix.ToDeallocateOne | gps/utils/linked_list.c:240-243 | and of one item its data, exactly if it came with a dealloc function |
| Tracking.MinWithOneMore | gps/gnss/GnssAdapter.cpp:1386-1398 | the minimum with one more session is the smaller of the old minimum and the new interval |
| Tracking.MinAfterChange | gps/gnss/GnssAdapter.cpp:1539-1557 | the minimum before and after a change of one session, told from the minimum of the others alone |
| Tracking.GnssAdapter.SmallestInterval | gps/gnss/GnssAdapter.cpp:1538-1548 | the loop finds a session with the least interval among the others, in any order of iteration |
| Tracking.GnssAdapter.StartTracking | gps/gnss/GnssAdapter.cpp:1403-1421 | the hardware runs at the given options, or the call failed and nothing changed |
| Tracking.GnssAdapter.StopTracking | gps/gnss/GnssAdapter.cpp:1637-1650 | the hardware is stopped, or the call failed and nothing changed |
| Tracking.GnssAdapter.StartTrackingMultiplex | gps/gnss/GnssAdapter.cpp:1377-1400 | on success the hardware follows the sessions with the new one; it is restarted exactly when that is faster than all, even where a failed restart left it stopped; a start that succeeds has the mode of that session too |
| Tracking.GnssAdapter.UpdateTrackingMultiplex | gps/gnss/GnssAdapter.cpp:1525-1561 | on success the hardware follows the sessions with the updated one, else nothing changed; it is restarted exactly when the session is or was faster than all others; a start that succeeds has interval and mode of a fastest session, and without ties they stay those of the fastest |
| Tracking.GnssAdapter.StopTrackingMultiplex | gps/gnss/GnssAdapter.cpp:1603-1634 | on success the hardware follows the remaining sessions and is stopped exactly when there are none; the API is called exactly when the session was faster than all others; interval and mode as for an update |
| Tracking.GnssAdapter.StartTrackingMessage | gps/gnss/GnssAdapter.cpp:1353-1368 | interval of the hardware and minimum of the sessions agree afterwards if they did before; over hardware left stopped, a successful start makes them agree exactly when the session is the fastest; the errors, and no change on any of them; without ties, interval and mode stay those of the fastest session |
| Tracking.GnssAdapter.UpdateTrackingMessage | gps/gnss/GnssAdapter.cpp:1501-1518 | the same for an update, with the session's old interval counting too; an unknown session gets no response |
| Tracking.GnssAdapter.StopTrackingMessage | gps/gnss/GnssAdapter.cpp:1582-1596 | the same for a stop |
| Tracking.GnssAdapter.StopClientSessions | gps/gnss/GnssAdapter.cpp:1034-1048 | erasing while walking takes exactly the client's sessions but those whose stop failed, and the hardware follows what is left; without ties in interval and mode |
| Tracking.GnssAdapter.EngineUp | gps/gnss/GnssAdapter.cpp:1104-1124 | after an engine restart hardware and sessions agree if and only if the restart of the fix did not fail, and then in interval and mode |

## Left out

- BoyerMoore.BmSearch: the empty pattern, for which line 62 wraps around and line 58 declares an array of length 0, and the int and uint32_t widths of indices: the index stays below text length plus pattern length, and widths beyond that are not modelled.
- BoyerMoore.SearchCorrectIff: patterns that contain NUL, for which strncmp stops early; for them the "if" half is `BoyerMoore.SourceTableSafe`.
- LocHeap.LocHeapNode.Push: mSize is an unbounded integer, and the freeing of nodes and the detaching of their data are not modelled; a node that was popped is merely no longer in the tree.
- LocTimerSpec.RunKeepsInv: one container with its fd; the second container shares both threads but neither heap nor fd. The read of mClient and the stop in a delegate's expire are one step, failing system calls are not modelled, and messages are handled in the order sent.
- LocTimerSpec.NoTimerIsForgotten: it bounds when the fd wakes the poll thread, not when the scheduler runs it.
- LocTimer.LocTimerContainer.ProcExpire: the objects that the timers in the heap are come as a parameter, and what a client's own code does in its callback is not part of it; the state machine lets every client act between any two steps.
- LocTimer.LocTimer.Start: the lock, reference counts and the choice of container; the container is a parameter.
- loc_timer_start and loc_timer_stop, the C wrapper over the timers, with its list of wrapper objects.
- AgpsSpec.RunKeepsInv: the data-service machine (DSStateMachine) and the emergency data-service client, whose failed requests leave subscribers on the list in RELEASED.
- AgpsSpec.OneFinalCallbackEach: modem restarts, after which dropped subscribers get no callback.
- Agps.AgpsManager.CreateAgpsStateMachines: the data-service machine, which is never created here.
- Agps.AgpsManager.ReleaseATL: the search in the data-service machine, which comes last.
- Agps.AgpsManager.HandleModemSSR: the data-service machine and the restart of its client.
- Agps.AgpsManager.RequestATL: the emergency type while the emergency PDN is configured goes to the data-service machine, which is not part of this model.
- Agps.AgpsManager.ReportAtlClosed: a report for a type without machine, which dereferences NULL; so for the other two reports.
- Agps.AgpsStateMachine.NotifyEventToSubscriber: the APN and bearer that an open callback passes on; they are those that the machine keeps.
- Agps.AgpsStateMachine.DeleteSubscriber: after a release the subscriber to delete is the list's own element (gps/gnss/Agps.cpp:419-436), with which the source goes on comparing once it is freed; here it is a value, compared by handle.
- Agps.AgpsStateMachine.ProcessUnsubscribe: subscribers are values compared by handle, so that the aliasing of mCurrentSubscriber with its list entry is written out as an update of that entry.
- AmplifierSpec.NoUpdateIsLostIff: what the calls of the amplifier library do is an assumption: set_device sets the device, ex_speaker_on and ex_speaker_off switch it, a failing ex_speaker_on and the calls that only the legacy mode makes may switch it in any way, and those of the bypass mode may choose the device too.
- AmplifierSpec.NoUpdateIsLost: device numbers are those of platform.h, which is not part of this model; in the state machine no client routes to LAST, after which the worker would read past enableds.
- AmplifierSpec.CloseEndsIff: no client calls the device while it is being closed.
- Amplifier.Tfa9890Device.EnableOutputDevices: device LAST with an amplifier, and numbers above LAST, for which the source writes past enableds or reads past the device maps; what that does is not defined.
- Amplifier.Tfa9890Device.CopyState: the class covers the sections that hold the mutex; the worker loop and its retries, which need not end, are in the state machine only.
- The device-to-amplifier map parsed from a configuration, the loading of the amplifier library, the failures of opening it and of opening a second device.
- LinkedList.Add: a failing allocation is a parameter; data that an equality function changes, and freed elements, are not modelled.
- Tracking.GnssAdapter.StartTrackingMessage: session ids are new until the 32-bit counter wraps around (gps/core/LocAdapterBase.cpp:55-61).
- Tracking.GnssAdapter.SmallestInterval: the map is walked in any order; on a tie the mode of the hardware may be that of another session, or one that a session had before, so that the mode is claimed after each start, and otherwise without ties.
- Tracking.GnssAdapter.StartTracking: the ULP proxy other than its base class, and the ULP commands that run on another thread.
- get_tz_version and VerifyTrustZoneFn: file and mmap handling around the search.
- SystemStatus and its observer, the LocApiBase defaults, LocationAPI dispatch, network-initiated sessions, NMEA generation, enum converters, the HIDL wrappers, lights, init and release tools: plumbing and field copies whose members would be easy.
