# Verified models of the algorithms and protocols in cppproj

The repository is a collection of C++ teaching programs. This project models the ones that hold
an algorithm, a data structure or a protocol with a non-trivial invariant, and proves what they
promise. `dafny verify dfyconfig.toml` checks everything.

| file | models |
|---|---|
| Hanoi.dfy | the Towers of Hanoi: legality, optimality and uniqueness of the printed moves |
| Recharge.dfy | the voucher dynamic program with a modular target |
| DualModeTimer.dfy | the timer with a deadline heap and lazy deletion |
| GracefulTimer.dfy | the timer with a heap, a map, a pending set and a callback counter |
| TimeWheel.dfy | the time wheel |
| MatchTables.dfy, Calculator.dfy, ServerApp.dfy, ServerRuns.dfy | the DDS server, and what every interleaving of its callbacks and reply iterations satisfies |
| ClientApp.dfy, RequestReply.dfy, Completion.dfy, Rescue.dfy | the DDS client, the client together with any number of servers, and when it can complete |
| SmartPtr.dfy | the reference-counted pointer |
| TaskQueue.dfy | the task queue with poison pills |
| Singleton.dfy | double-checked locking |
| QueueTP.dfy, JTList.dfy, Links.dfy | the linked queue, the linked list with its iterator, and their nodes |
| BoundedStack.dfy | the bounded stack and the program that moves names through it |
| CanSignal.dfy | the CAN signal decoder and jump detector |
| Arithmetic.dfy | powers of two and the C++ operators for negative operands |
| Histories.dfy, Callbacks.dfy, Options.dfy | what the modules share: machines and their histories of events, the calls of a DDS callback, optional values |

How the models are built:

- Objects with fields are classes, and each method's contract states its whole new state. A thread
  or callback is modelled at the grain of its critical sections: one method (or one step of a state
  machine) is one critical section, and a list of events or steps is one interleaving. The lemmas
  about histories and runs hold for every such list. A timer, server or client object records its
  own history: each method appends its event, and `Valid()` says that the history is one the
  machine allows and leads to the present state.
- Flags that the program reads and writes without the lock (the stop flags of server and client,
  `running_` of the timers) are tested and acted on in separate steps, so a stop can fall between
  the two. ServerRuns.dfy proves what can still happen after a stop, and that nothing can exactly
  when no thread was in between.
- Clock readings, random bits, the result of a DDS write and the identities DDS assigns are
  parameters, so every outcome is covered. A priority queue is a multiset whose top is any least
  element.
- `delete` is modelled by ghost sets of deleted nodes and objects; each place that deletes proves
  that the thing was not deleted before.
- The server's `on_data_available` allocates one request object outside its loop, so all samples
  of one call share it. The model follows the code: ServerRuns.dfy proves which sample a reply is
  computed from, exactly when a reply is that of its own request, and exactly when a request is lost
  because a later sample of its call is malformed, with a run for each. In RequestReply.dfy calls
  take any number of samples, and a server takes the requests of the client in the order of the
  writes and each of them once. In all runs a reply carries the value of its own request or of a
  later one, so that a reply to the last request, the division, is exact. In the runs in which no
  call overwrites the object of a queued request, among them those with one sample per call, all
  replies are exact.
- `is_fully_unmatched` returns the opposite of what its name says; its only caller negates it. The
  model keeps both.
- The documentation of the request/reply example says that a client exits once its requests were
  answered. With a divisor of 0 the division has no answer, and no run completes. With another one
  a request can still be lost: its client is gone when it is processed, or its object has been
  overwritten. Completion.dfy and Rescue.dfy say, for every reachable state in which the client has
  neither stopped nor failed, exactly when completion is still within reach.
- `findMinRecharge` caps the search at 20 times the largest voucher. Recharge.dfy proves that this
  is no restriction exactly for a monthly consumption of at most 21, and that its remainder test
  means what the comment above it says exactly when the consumption is positive or divides the
  balance, with an input for which it does not.
- The time wheel calls a timer at the intended tick exactly when its delay is less than one turn;
  then the call comes no earlier than the delay and less than one interval later.

## Model

| member | source | states |
|---|---|---|
| Hanoi.SolveCarriesTower | other/testcode/hannutower.cpp:25-37 | whatever larger disks lie on the pegs, every printed move is legal and together they carry the n smallest disks from a to c, leaving all other disks where they were |
| Hanoi.SolveLength | other/testcode/hannutower.cpp:25-37 | 2^n - 1 moves are printed |
| Hanoi.NoShorterSequence | other/testcode/hannutower.cpp:25-37 | every legal sequence that takes n disks from one peg to another, moving larger disks as it likes, has at least 2^n - 1 moves |
| Hanoi.ShortestSequenceIsUnique | other/testcode/hannutower.cpp:25-37 | a legal sequence of that length is the printed one |
| Hanoi.LegalMovesTopDisk | other/testcode/hannutower.cpp:20-23 | a legal move pops the top disk of one stack and pushes it on another where it covers only a larger disk; the third stack is untouched |
| Hanoi.TopDiskMovesAreLegal | other/testcode/hannutower.cpp:20-23 | conversely every such pop and push is a legal move |
| Recharge.Fill | other/statistics/countoff.cpp:27-34 | after the nested in-place loops every entry is the least number of vouchers that pay its index, or the sentinel exactly when none do |
| Recharge.LeastStep | other/statistics/countoff.cpp:29-33 | a payment with one more denomination either leaves it out or is one voucher of it and a payment of the rest |
| Recharge.LeastAboveAmount | other/statistics/countoff.cpp:29 | a denomination above the amount changes nothing |
| Recharge.LeastZeroCoin | other/statistics/countoff.cpp:29-33 | a denomination of 0 changes nothing |
| Recharge.EmptyTable | other/statistics/countoff.cpp:24-25 | the initial table: 0 pays amount 0, all other amounts are unpayable |
| Recharge.MaxElement | other/statistics/countoff.cpp:21 | the largest denomination |
| Recharge.AcceptedMeansMultiple | other/statistics/countoff.cpp:16-18 | for a positive consumption and any balance the remainder test accepts exactly the amounts that make the balance a multiple of it |
| Recharge.AcceptedForNegativeConsumption | other/statistics/countoff.cpp:16-18 | for a negative consumption the test accepts an amount exactly if the consumption divides both the balance and the amount |
| Recharge.TestIsRightExactly | other/statistics/countoff.cpp:16-18 | the remainder test agrees with the documented condition for every amount if and only if the consumption is positive or divides the balance |
| Recharge.TestRefusesSolution | other/statistics/countoff.cpp:16-18 | balance 2, consumption -19: the amount 17 meets the documented condition and is refused |
| Recharge.FindMinRecharge | other/statistics/countoff.cpp:15-48 | the least accepted payable amount within the cap, -1 exactly when there is none; for a positive consumption the least solution of any size when one is found; for a consumption up to 21 the result -1 means no amount of any size is a solution; for a negative one the result is 0 if it divides the balance and -1 otherwise |
| Recharge.FindAllValidRecharges | other/statistics/countoff.cpp:57-78 | exactly the accepted payable amounts up to 4000, ascending; for a positive consumption exactly the solutions up to 4000 |
| Recharge.GroupOfMultiple | other/statistics/countoff.cpp:20-21 | among m vouchers some non-empty consecutive group sums to a multiple of m |
| Recharge.FewVouchersSuffice | other/statistics/countoff.cpp:20-21 | every solution can be thinned out to one with fewer than m vouchers |
| Recharge.CapLosesNothing | other/statistics/countoff.cpp:20-21 | for a consumption up to 21 some solution no larger than a given one lies within the cap of 20 times the largest denomination |
| Recharge.SearchIsCompleteExactly | other/statistics/countoff.cpp:20-21 | the capped search finds a solution whenever one exists, for all balances and denominations, if and only if the consumption is at most 21 |
| DualModeTimer.DualModeTimer.constructor | other/timer/dualTimer/dualtimer.cc:55 | no timer, not running |
| DualModeTimer.DualModeTimer.Start | other/timer/dualTimer/dualtimer.cc:62-68 | launches the manager unless running_ is set |
| DualModeTimer.DualModeTimer.SignalStop | other/timer/dualTimer/dualtimer.cc:72-77 | clears running_, outside of the lock |
| DualModeTimer.DualModeTimer.Stop | other/timer/dualTimer/dualtimer.cc:71-84 | the parts before the join: clears running_ and cancels all timers, if running |
| DualModeTimer.DualModeTimer.AddNonBlockingTimer | other/timer/dualTimer/dualtimer.cc:145-167 | a fresh id enters heap and live table with the given duration and start time; nothing else changes |
| DualModeTimer.DualModeTimer.CancelTimer | other/timer/dualTimer/dualtimer.cc:194-210 | true exactly when the id was pending, which ends it and no other timer; its heap entry becomes stale |
| DualModeTimer.DualModeTimer.CancelAllTimers | other/timer/dualTimer/dualtimer.cc:213-234 | nothing is pending or queued any more |
| DualModeTimer.DualModeTimer.GetActiveTimerCount | other/timer/dualTimer/dualtimer.cc:237-240 | the number of pending timers |
| DualModeTimer.DualModeTimer.TestRunning | other/timer/dualTimer/dualtimer.cc:250 | the manager enters a pass if running_ is set at its test, and ends otherwise |
| DualModeTimer.DualModeTimer.ManagerIteration | other/timer/dualTimer/dualtimer.cc:249-298 | one pass, in which running_ may be clear already: idle exactly when the heap is empty; a pass at a given time waits exactly when that time is before start plus duration of every heap entry; otherwise it pops an entry for which start plus duration is least and has passed, and it fires a pending timer and drops a cancelled one |
| DualModeTimer.DualModeTimer.Expire | other/timer/dualTimer/dualtimer.cc:262-293 | the popped timer fires if it is live and is dropped if it was cancelled |
| DualModeTimer.DualModeTimer.Top | other/timer/dualTimer/dualtimer.cc:37-40 | some entry whose start plus duration is least |
| DualModeTimer.NeverFiresAgain | other/timer/dualTimer/dualtimer.cc:194-210 | in every interleaving a timer fires at most once and never after cancelTimer returned true |
| DualModeTimer.CancelAllIsFinal | other/timer/dualTimer/dualtimer.cc:213-234 | no timer added before a cancelAllTimers fires after it |
| DualModeTimer.FiresOnTimeInOrder | other/timer/dualTimer/dualtimer.cc:258-271 | a timer that fires was added before, start plus duration as they were given then has passed, and no timer pending then has a smaller sum |
| DualModeTimer.AddedOnce | other/timer/dualTimer/dualtimer.cc:148 | no id is given out twice |
| DualModeTimer.PendingExactly | other/timer/dualTimer/dualtimer.cc:145-234 | a timer is pending exactly from its addition until it fires or is cancelled |
| DualModeTimer.StaleWasCancelled | other/timer/dualTimer/dualtimer.cc:266-270 | only cancelled timers leave stale heap entries |
| DualModeTimer.SkipsAreBounded | other/timer/dualTimer/dualtimer.cc:262-293 | the passes spent on cancelled entries are at most the cancellations |
| DualModeTimer.FiresSoon | other/timer/dualTimer/dualtimer.cc:249-298 | as long as nothing ends a pending timer, the passes that take an entry are fewer than the heap entries whose start plus duration is no later than its own, counting those added in the meantime |
| DualModeTimer.PassesAfterStop | other/timer/dualTimer/dualtimer.cc:71-88 | after running_ was cleared at most the pass that had passed its test has an effect, and none after the join, until the timer is started again |
| DualModeTimer.EveryTimerKeepsItsPromises | other/timer/dualTimer/dualtimer.cc:145-298 | for every timer object, through all calls and passes of all threads it has seen: timers fire at most once, never once cancelled, alone or all together, not before start plus duration and in order of these sums, and the pending ones are exactly those that nothing has ended |
| DualModeTimer.ManagerNeverWaitsOnDueTimer | other/timer/dualTimer/dualtimer.cc:253-297 | a pass that waits at a given time does so before start plus duration of every pending timer, and none is idle while a timer is pending |
| MatchTables.RemoteClientMatchedStatus.MatchRequestWriter | other/pubsub/dds/request-response/app_utils.hpp:111-116 | sets or clears one endpoint of one client and nothing else |
| MatchTables.RemoteClientMatchedStatus.MatchReplyReader | other/pubsub/dds/request-response/app_utils.hpp:118-123 | the same for the other endpoint |
| MatchTables.RemoteClientMatchedStatus.IsMatched | other/pubsub/dds/request-response/app_utils.hpp:125-138 | true exactly when both endpoints are matched |
| MatchTables.RemoteClientMatchedStatus.IsFullyUnmatched | other/pubsub/dds/request-response/app_utils.hpp:140-153 | true exactly when some endpoint is matched: the opposite of the name |
| MatchTables.RemoteClientMatchedStatus.NoClientMatched | other/pubsub/dds/request-response/app_utils.hpp:155-169 | true exactly when no endpoint of any client is matched |
| MatchTables.RemoteClientMatchedStatus.Clear | other/pubsub/dds/request-response/app_utils.hpp:171-174 | no endpoint is matched |
| MatchTables.RemoteServerMatchedStatus.MatchRequestReader | other/pubsub/dds/request-response/app_utils.hpp:50-55 | sets or clears one endpoint of one server |
| MatchTables.RemoteServerMatchedStatus.MatchReplyWriter | other/pubsub/dds/request-response/app_utils.hpp:57-62 | the same for the other endpoint |
| MatchTables.RemoteServerMatchedStatus.IsMatched | other/pubsub/dds/request-response/app_utils.hpp:64-77 | true exactly when both endpoints are matched |
| MatchTables.RemoteServerMatchedStatus.IsAnyServerMatched | other/pubsub/dds/request-response/app_utils.hpp:79-91 | true exactly when some server has both endpoints matched |
| Calculator.Calculate | other/pubsub/dds/request-response/ServerApp.cpp:501-546 | succeeds exactly for the four operations without a zero divisor; then the result is x + y, x - y, x * y or x / y rounded toward zero; otherwise the out-parameter keeps its value |
| Calculator.ExactFits | other/pubsub/dds/request-response/ServerApp.cpp:507-543 | no operation on two int16 operands leaves the int32 range |
| Arithmetic.QuotientRoundsTowardZero | other/pubsub/dds/request-response/ServerApp.cpp:533 | the C++ quotient leaves a rest that is smaller than the divisor and has the sign of the dividend |
| Arithmetic.RoundingIsUnique | other/pubsub/dds/request-response/ServerApp.cpp:533 | which determines the quotient |
| ServerApp.ServerApp.Stop | other/pubsub/dds/request-response/ServerApp.cpp:128-132 | the stop flag is set, whatever the other threads are doing |
| ServerApp.ServerApp.OnParticipantDiscovery | other/pubsub/dds/request-response/ServerApp.cpp:134-183 | only participants whose user data is the single byte CLIENT are not ignored; when such a client is removed or dropped both its endpoints become unmatched, all others stay as they are, and the kept replies stay |
| ServerApp.ServerApp.OnPublicationMatched | other/pubsub/dds/request-response/ServerApp.cpp:185-215 | for changes of 1 and -1 the reply reader of the client becomes matched or unmatched, and no other endpoint changes; the kept replies are cleared exactly if the change is -1 and no endpoint of any client is left |
| ServerApp.ServerApp.OnSubscriptionMatched | other/pubsub/dds/request-response/ServerApp.cpp:217-248 | the same for the request writer |
| ServerApp.ServerApp.EnterDataAvailable | other/pubsub/dds/request-response/ServerApp.cpp:254 | every call allocates one request object |
| ServerApp.ServerApp.TestStop | other/pubsub/dds/request-response/ServerApp.cpp:256 | the call goes on if the flag is clear at the test, and returns otherwise |
| ServerApp.ServerApp.TakeSample | other/pubsub/dds/request-response/ServerApp.cpp:256-258 | without a lock, and possibly after a stop, a sample is read into the object of the call; a usable one is to be pushed |
| ServerApp.ServerApp.PushRequest | other/pubsub/dds/request-response/ServerApp.cpp:266-272 | the taken request is pushed, pointing to the object of the call |
| ServerApp.ServerApp.OnDataAvailable | other/pubsub/dds/request-response/ServerApp.cpp:250-275 | without interference the usable samples are pushed in order, and the object they share holds the last one |
| ServerApp.PushesExactly | other/pubsub/dds/request-response/ServerApp.cpp:256-272 | the requests pushed are exactly those of the usable samples, each pointing to the object of the call |
| ServerApp.ServerApp.BeginIteration | other/pubsub/dds/request-response/ServerApp.cpp:426-436 | with the lock, which it keeps, the reply thread goes on exactly if the stop flag is clear |
| ServerApp.ServerApp.ReplyIteration | other/pubsub/dds/request-response/ServerApp.cpp:437-497 | one iteration past its test, and possibly after a stop, pops the front request: dropped if no endpoint of its client is matched, or both are and its object is malformed; queued again at the end if one is matched, or if the write of its reply fails; otherwise answered, the reply being sum, difference, product or quotient of what the object holds, and kept |
| ServerRuns.RequestsAreConserved | other/pubsub/dds/request-response/ServerApp.cpp:250-275 | in every interleaving the requests pushed are, with multiplicity, the ones still queued, answered and dropped |
| ServerRuns.ExactlyOnePlace | other/pubsub/dds/request-response/ServerApp.cpp:424-499 | when identities are unique each pushed request is in exactly one place, once: queued, answered by one successful write, or dropped |
| ServerRuns.OnlyPushedRequests | other/pubsub/dds/request-response/ServerApp.cpp:424-499 | nothing is queued, answered or dropped that was not pushed |
| ServerRuns.EffectsAfterStop | other/pubsub/dds/request-response/ServerApp.cpp:426-484 | stop takes no lock: after it at most the iteration takes effect whose test was passed, and each call of on_data_available that had passed its test takes and pushes at most one more sample |
| ServerRuns.StopIsFinalExactly | other/pubsub/dds/request-response/ServerApp.cpp:128-132 | after a stop nothing is ever pushed or processed any more if and only if no thread was between its test and its action |
| ServerRuns.Rotation | other/pubsub/dds/request-response/ServerApp.cpp:431-457 | whatever arrives or is queued again, k iterations move every request k places forward |
| ServerRuns.ProcessedInTurn | other/pubsub/dds/request-response/ServerApp.cpp:426-498 | the request at index k is processed by iteration k + 1, and answered then if its client is matched, its calculation succeeds and the write does not fail |
| ServerRuns.KeptIsLatest | other/pubsub/dds/request-response/ServerApp.cpp:185-248 | what the reply writer keeps is exactly the replies written since the last unmatch that left no endpoint matched, or all of them if there was none |
| ServerRuns.MatchedExactly | other/pubsub/dds/request-response/ServerApp.cpp:160-248 | an endpoint is matched if and only if it was matched and since then neither it was unmatched nor its client lost |
| ServerRuns.ReplyUsesLastSampleOfCall | other/pubsub/dds/request-response/ServerApp.cpp:254-270 | a reply is computed from the sample its on_data_available call took last |
| ServerRuns.ReplyIsExact | other/pubsub/dds/request-response/ServerApp.cpp:461-484 | if the call takes no further sample before the request is processed, the reply carries the exact value, the client id and the identity of the request itself |
| ServerRuns.ReplyIsExactExactly | other/pubsub/dds/request-response/ServerApp.cpp:461-484 | the reply is the one of the request itself if and only if the sample read last into its object has the same client id and the same value |
| ServerRuns.LostExactlyWithLastSample | other/pubsub/dds/request-response/ServerApp.cpp:464-470 | a request of a matched client is dropped as malformed if and only if the sample read last into its object is malformed, even if the request itself is not |
| ServerRuns.TwoSamplesInOneCall | other/pubsub/dds/request-response/ServerApp.cpp:254-270 | a run in which a call takes two samples and the request 1 + 1 is answered with 9 |
| ServerRuns.WellFormedRequestIsLost | other/pubsub/dds/request-response/ServerApp.cpp:464-470 | a run in which the request 1 + 1 is dropped because the next sample of its call divides by 0 |
| ServerRuns.EveryServerKeepsItsPromises | other/pubsub/dds/request-response/ServerApp.cpp:250-499 | for every server object, through all calls of all threads it has seen: the requests pushed are queued, answered or dropped, with multiplicity; each one with an identity of its own is in one place; every reply has the value of the sample its call took last |
| ClientApp.ClientApp.Stop | other/pubsub/dds/request-response/ClientApp.cpp:138-142 | the stop flag is set, whatever the other threads are doing |
| ClientApp.ClientApp.OnPublicationMatched | other/pubsub/dds/request-response/ClientApp.cpp:192-217 | for changes of 1 and -1 the request reader of the server becomes matched or unmatched; nothing else changes |
| ClientApp.ClientApp.OnSubscriptionMatched | other/pubsub/dds/request-response/ClientApp.cpp:219-244 | the same for the reply writer |
| ClientApp.ClientApp.AwaitMatch | other/pubsub/dds/request-response/ClientApp.cpp:107-112 | the first wait of run ends exactly when some server is fully matched or the client is stopped |
| ClientApp.ClientApp.SettleDown | other/pubsub/dds/request-response/ClientApp.cpp:114-127 | run goes on to send unless the client is stopped |
| ClientApp.ClientApp.SendRequest | other/pubsub/dds/request-response/ClientApp.cpp:489-506 | the identity is recorded as unanswered even if the write fails; the return code is that of the write |
| ClientApp.ClientApp.SendRequests | other/pubsub/dds/request-response/ClientApp.cpp:455-487 | sends Addition, Subtraction, Multiplication and Division with the operands of the client, in this order up to the first failing write, and records the identity of each of these writes |
| ClientApp.ClientApp.TestStop | other/pubsub/dds/request-response/ClientApp.cpp:252 | a call of on_data_available goes on if the flag is clear at the test, and returns otherwise |
| ClientApp.ClientApp.MarkReply | other/pubsub/dds/request-response/ClientApp.cpp:254-305 | the critical section, possibly after a stop: unknown and duplicate replies change nothing; the first reply to a recorded request marks it and is reported, and it stops the client exactly when four requests are recorded and now all are marked |
| ClientApp.ClientApp.MarkStatus | other/pubsub/dds/request-response/ClientApp.cpp:260-298 | the lookup and the loop over the four requests: true exactly for such a last missing reply |
| ClientApp.ClientApp.OnDataAvailable | other/pubsub/dds/request-response/ClientApp.cpp:246-307 | without interference it takes samples up to the first that completes the four replies, which stops the client, or else all, and marks what they answer; a stopped client takes none |
| ClientApp.MarksExactly | other/pubsub/dds/request-response/ClientApp.cpp:260-266 | the requests marked by some samples are those marked before and those with a usable sample among them |
| ClientApp.MarksAfterStop | other/pubsub/dds/request-response/ClientApp.cpp:252-256 | after a stop each call of on_data_available that had passed its test marks at most one more reply |
| ClientApp.EveryClientIsHonest | other/pubsub/dds/request-response/ClientApp.cpp:246-307 | for every client object, through all it has seen: each marked request has a reported reply, each reported reply was taken and was usable, and a client that its callback stopped stays stopped |
| RequestReply.StepKeepsInv | other/pubsub/dds/request-response/ClientApp.cpp:246-506 | every step of the client, the servers and DDS, however many samples a call takes, keeps: the object of a queued request of the client holds that request, a later one, or one of another client; replies carry the value of such a request; and the callback has stopped the client exactly if four identities are recorded and all are marked |
| RequestReply.ReportedRepliesAreLater | other/pubsub/dds/request-response/ServerApp.cpp:254-270 | in every run a reply that the client reports is for one of its requests and carries the sum, difference, product or quotient that is the result of that request or of a later one; so a reply to the division is x / y |
| RequestReply.ValueIsExact | other/pubsub/dds/request-response/ServerApp.cpp:507-543 | the result of request number 0, 1, 2 or 3 of the client, in the order in which it sends them, is x + y, x - y, x * y or x / y rounded toward zero |
| RequestReply.StopMeansFourReplies | other/pubsub/dds/request-response/ClientApp.cpp:289-304 | in every run a stop raised by the reply callback means that the four requests were sent under four identities and each has a reported reply with the exact value of that request or of a later one |
| RequestReply.StopMeansFourExactReplies | other/pubsub/dds/request-response/ClientApp.cpp:289-304 | in every sparing run (no call overwrites the object of a queued request) it means four distinct identities, one for each operation, each with a reply that carries its own exact value |
| RequestReply.ReportedRepliesAreExact | other/pubsub/dds/request-response/ClientApp.cpp:260-269 | in every sparing run each reply the client reports carries the exact value of the request sent under its identity |
| RequestReply.DivisionByZeroNeverCompletes | other/pubsub/dds/request-response/ServerApp.cpp:526-530 | with a divisor of 0 the reply callback never stops the client, in any run |
| RequestReply.OneSampleRunsAreSparing | other/pubsub/dds/request-response/ServerApp.cpp:254-270 | a run in which every call of on_data_available takes one sample is sparing |
| RequestReply.ClientOfRun | other/pubsub/dds/request-response/ClientApp.cpp:103-307 | what the client does in a run of the system is a history of the client |
| RequestReply.ServerOfRun | other/pubsub/dds/request-response/ServerApp.cpp:250-499 | what each server does in it is a history of the server, so that the results on servers apply to it |
| Completion.CompletesExactlyForNonzeroDivisor | other/pubsub/dds/request-response/ClientApp.cpp:103-136 | some run completes if and only if the divisor is not 0, and then a sparing one does |
| Completion.CompletionReachableExactly | other/pubsub/dds/request-response/ClientApp.cpp:103-136 | from every reachable state in which the client has neither stopped nor failed, further steps that overwrite no queued request complete it if and only if each of its requests has been answered, or its reply is on the way, or a server holds it with a usable object and will not forget it, or a running server has not taken it and it has a value |
| Completion.AnswerableBefore | other/pubsub/dds/request-response/ServerApp.cpp:424-499 | a request that cannot be answered any more stays so in every step that overwrites no queued request |
| Completion.AnswerableAfter | other/pubsub/dds/request-response/ServerApp.cpp:424-499 | a request that can be answered stays so in every careful step |
| Completion.WriteReply | other/pubsub/dds/request-response/ServerApp.cpp:431-497 | a server that can answer a request can be brought to do so, whatever its queue |
| Rescue.CompletionReachableByRescue | other/pubsub/dds/request-response/ServerApp.cpp:254-270 | the same for all further steps: completion is reachable if and only if, besides, calls that take one more request of the client can rescue the requests whose object was overwritten by another client, each server as often as it has requests with a value left to take |
| Rescue.AnswerableByBefore | other/pubsub/dds/request-response/ServerApp.cpp:254-270 | what no such plan can answer stays so in every step |
| Rescue.RescuePeer | other/pubsub/dds/request-response/ServerApp.cpp:250-499 | a server can carry out its part of a plan |
| Rescue.InexactReply | other/pubsub/dds/request-response/ServerApp.cpp:461-484 | with any divisor other than 0, a run in which the client reports the difference as the reply to its addition, because one call took both requests |
| SmartPtr.KRefCount.AddRef | design_mode/proxy/proxydemo.cpp:16-18 | the count goes up by 1 modulo 2^64; the result is the new count modulo 2^32 |
| SmartPtr.KRefCount.Release | design_mode/proxy/proxydemo.cpp:20-22 | the count goes down by 1 modulo 2^64; the result is the new count modulo 2^32 |
| SmartPtr.ReleaseReportsLast | design_mode/proxy/proxydemo.cpp:20-22 | Release reports the last owner exactly when the count was 1 modulo 2^32, so exactly up to 2^32 owners |
| SmartPtr.SmartPtr.constructor | design_mode/proxy/proxydemo.cpp:36-40 | an empty pointer with a count of its own; nothing is handed over |
| SmartPtr.SmartPtr.FromRaw | design_mode/proxy/proxydemo.cpp:42-45 | points to the given object with a new count, and this object, given to no SmartPtr before, is the only one handed over |
| SmartPtr.SmartPtr.Copy | design_mode/proxy/proxydemo.cpp:47-49 | points to the object of the source and uses its count |
| SmartPtr.SmartPtr.Destroy | design_mode/proxy/proxydemo.cpp:51-58 | gives up the share; object and count are deleted exactly when it was the last owner |
| SmartPtr.SmartPtr.Release | design_mode/proxy/proxydemo.cpp:53-57 | deletes object and count exactly when the count was 1; what was deleted before must not be deleted again, which every caller proves |
| SmartPtr.SmartPtr.Assign | design_mode/proxy/proxydemo.cpp:70-86 | afterwards the pointer has the object and the count of the source; self-assignment does nothing; otherwise the old share is given up and the new one joined |
| SmartPtr.SmartPtr.AssignRaw | design_mode/proxy/proxydemo.cpp:88-101 | gives up the share, points to the given object with a new count and hands over this object |
| SmartPtr.SmartPtr.Attach | design_mode/proxy/proxydemo.cpp:111-122 | the same as assigning a raw pointer |
| SmartPtr.SmartPtr.Get | design_mode/proxy/proxydemo.cpp:103-109 | the object of the pointer, which is not deleted while the pointer lives |
| SmartPtr.LeaveIsSound | design_mode/proxy/proxydemo.cpp:51-58 | giving up a share keeps every count equal to its number of owners and deletes only what is not deleted yet |
| SmartPtr.JoinIsSound | design_mode/proxy/proxydemo.cpp:80-82 | joining a share keeps every count equal to its number of owners |
| SmartPtr.AttachIsSound | design_mode/proxy/proxydemo.cpp:119-121 | so does taking a new object |
| SmartPtr.CountIsOwners | design_mode/proxy/proxydemo.cpp:24-58 | the count that a live SmartPtr refers to is the number of live SmartPtrs that refer to it |
| SmartPtr.DeletedMeansUnowned | design_mode/proxy/proxydemo.cpp:51-58 | an object that was ever handed over is deleted if and only if no live SmartPtr points to it |
| SmartPtr.NothingRemains | design_mode/proxy/proxydemo.cpp:51-58 | when no SmartPtr is left, every object ever handed over and every count has been deleted |
| TaskQueue.TaskQueue.Push | other/cppstl/mutex/use_mutex.cpp:12-18 | appends the task |
| TaskQueue.TaskQueue.Pop | other/cppstl/mutex/use_mutex.cpp:20-26 | removes and returns the first task |
| TaskQueue.StepKeepsInv | other/cppstl/mutex/use_mutex.cpp:40-53 | every step keeps: popped, queued and unpushed elements are the program of main; workers that left are the pills popped; every popped task is finished or being processed by exactly one worker |
| TaskQueue.PopsInPushOrder | other/cppstl/mutex/use_mutex.cpp:63-69 | the elements popped are a prefix of the tasks followed by one -1 for each worker |
| TaskQueue.NoEarlyExit | other/cppstl/mutex/use_mutex.cpp:46-48 | for any number of workers and tasks no worker leaves before every task was popped |
| TaskQueue.NoDeadlock | other/cppstl/mutex/use_mutex.cpp:40-53 | some step is enabled until all workers have left |
| TaskQueue.RunsAreBounded | other/cppstl/mutex/use_mutex.cpp:40-53 | every run ends: each step uses up some of the work |
| TaskQueue.RunsEndClean | other/cppstl/mutex/use_mutex.cpp:59-73 | where a run ends all workers have left, the queue is empty, and every task was processed as often as it was pushed |
| Singleton.Registry.GetInstance | design_mode/singleton/dclp.cpp:7-18 | without interference an existing object is returned, or a new one stored and returned |
| Singleton.StepKeepsInv | design_mode/singleton/dclp.cpp:7-18 | every atomic step of any thread keeps: the mutex owner is the one thread in the critical section, and an object is constructed only while none is published |
| Singleton.OneInstance | design_mode/singleton/dclp.cpp:7-18 | for any number of threads and calls at most one object is constructed, and every call returns it |
| Singleton.MutualExclusion | design_mode/singleton/dclp.cpp:10 | two threads are never in the critical section at once |
| Singleton.NoDeadlock | design_mode/singleton/dclp.cpp:10-16 | read off the locking invariant: the owner of the mutex can always go on, and without owner every thread can |
| Singleton.MutexIsReleased | design_mode/singleton/dclp.cpp:10-16 | each step of the owner brings it closer to releasing the mutex, and no other step disturbs it |
| Singleton.EveryCallReturns | design_mode/singleton/dclp.cpp:7-18 | in every run a call returns the published object within seven steps of its own thread, whatever the other threads do |
| QueueTP.QueueTP.constructor | primer_plus/chap15/15.2/queuetp.h:47-52 | an empty queue |
| QueueTP.QueueTP.Enqueue | primer_plus/chap15/15.2/queuetp.h:66-81 | appends the item in a new last node unless the queue is full |
| QueueTP.QueueTP.Dequeue | primer_plus/chap15/15.2/queuetp.h:83-97 | removes, deletes and returns the oldest item, or fails on an empty queue |
| QueueTP.QueueTP.Destroy | primer_plus/chap15/15.2/queuetp.h:54-64 | deletes every linked node, and none twice |
| QueueTP.QueueTP.QueueCount | primer_plus/chap15/15.2/queuetp.h:37-40 | the number of queued items |
| QueueTP.DeliversInOrder | primer_plus/chap15/15.2/queuetp.h:66-97 | read off the invariant of the queue: over all calls the delivered items are a prefix of the accepted ones and the rest is queued, within the bound |
| QueueTP.FrontReachesItems | primer_plus/chap15/15.2/queuetp.h:18-20 | front reaches exactly items nodes, and the last of them is rear |
| Links.ChainIsReached | primer_plus/chap15/15.2/queuetp.h:18-20 | a chain of distinct linked nodes is what following next visits |
| JTList.JTList.constructor | design_mode/iterator/iterator.cc:21 | an empty list whose count is uninitialized |
| JTList.JTList.GetCount | design_mode/iterator/iterator.cc:77-80 | the number of nodes plus what the count was at first |
| JTList.JTList.Get | design_mode/iterator/iterator.cc:82-100 | the node at the index if it is one that Get finds, otherwise null |
| JTList.GetFindsEveryNode | design_mode/iterator/iterator.cc:84-87 | the indices that Get finds are those of all nodes if and only if the uninitialized count was not negative |
| JTList.JTList.Includes | design_mode/iterator/iterator.cc:112-125 | true exactly when the value occurs |
| JTList.JTList.Append | design_mode/iterator/iterator.cc:127-144 | a new last node with the value |
| JTList.JTList.Remove | design_mode/iterator/iterator.cc:146-185 | the node is taken out, deleted once, and the others keep order and values; a null pointer changes nothing |
| JTList.JTList.Previous | design_mode/iterator/iterator.cc:160-170 | the search loop finds the node before |
| JTList.JTList.Destroy | design_mode/iterator/iterator.cc:65-75 | deletes every node, and none twice |
| JTList.HeadReachesContents | design_mode/iterator/iterator.cc:127-185 | the nodes from head spell the list |
| JTList.JTListIterator.First | design_mode/iterator/iterator.cc:192-195 | stands on the first node |
| JTList.JTListIterator.Next | design_mode/iterator/iterator.cc:197-200 | moves to the next node |
| JTList.JTListIterator.IsDone | design_mode/iterator/iterator.cc:202-205 | true exactly past the last node, for a non-empty list |
| JTList.JTListIterator.CurrentItem | design_mode/iterator/iterator.cc:207-210 | the node it stands on |
| JTList.Traverse | design_mode/iterator/iterator.cc:228-231 | the loop visits every element once, in order, and ends |
| GracefulTimer.GracefulTimer.AddNonBlockingTimer | other/timer/dualTimer/timer_demo.cpp:157-219 | -1 exactly when exiting or stopped at the test; otherwise a fresh id that is active, pending and queued |
| GracefulTimer.GracefulTimer.Admit | other/timer/dualTimer/timer_demo.cpp:159-169 | under the lock, which it keeps on success, the timer is admitted exactly if the program is not exiting and running_ is set |
| GracefulTimer.GracefulTimer.Enqueue | other/timer/dualTimer/timer_demo.cpp:171-218 | under the same lock a fresh id becomes active, pending and queued, even if stop has cleared running_ since the test |
| GracefulTimer.GracefulTimer.CancelTimer | other/timer/dualTimer/timer_demo.cpp:221-231 | true exactly when the timer is active; it stays in the tables but is marked and no longer pending |
| GracefulTimer.GracefulTimer.Start | other/timer/dualTimer/timer_demo.cpp:61-65 | launches the manager unless running_ is set |
| GracefulTimer.GracefulTimer.SignalStop | other/timer/dualTimer/timer_demo.cpp:74-78 | clears running_, outside of the lock |
| GracefulTimer.GracefulTimer.TestRunning | other/timer/dualTimer/timer_demo.cpp:253 | the manager enters a pass if running_ is set at its test, and ends otherwise |
| GracefulTimer.GracefulTimer.ManagerIteration | other/timer/dualTimer/timer_demo.cpp:250-314 | one pass: takes the timer with the least expiry among those queued if it has expired, drops it if it was cancelled, and waits if none has expired |
| GracefulTimer.GracefulTimer.Expire | other/timer/dualTimer/timer_demo.cpp:273-304 | the expired id is always found in the map; it is taken or, if cancelled, dropped |
| GracefulTimer.GracefulTimer.BeginCallback | other/timer/dualTimer/timer_demo.cpp:181-183 | the counter goes from 0 to 1 |
| GracefulTimer.GracefulTimer.EndCallback | other/timer/dualTimer/timer_demo.cpp:193-194 | the counter goes back to 0 |
| GracefulTimer.GracefulTimer.RetireCallback | other/timer/dualTimer/timer_demo.cpp:198-202 | the id stops being pending |
| GracefulTimer.GracefulTimer.FinishStop | other/timer/dualTimer/timer_demo.cpp:80-95 | once the manager is joined, which means that it has ended and no callback is in flight, the counter is 0, and all tables are cleared |
| GracefulTimer.GracefulTimer.GetActiveCallbackCount | other/timer/dualTimer/timer_demo.cpp:234-236 | 1 while a callback runs, otherwise 0 |
| GracefulTimer.NeverTakenAgain | other/timer/dualTimer/timer_demo.cpp:221-231 | a callback never runs after cancelTimer returned true, and never twice |
| GracefulTimer.NeverTakenEarly | other/timer/dualTimer/timer_demo.cpp:270-283 | a callback runs only for a timer that was added and has expired, and no timer active then was added to expire earlier |
| GracefulTimer.CallbacksDoNotOverlap | other/timer/dualTimer/timer_demo.cpp:282-295 | of two callbacks the first has ended before the second begins |
| GracefulTimer.CallbacksAfterStop | other/timer/dualTimer/timer_demo.cpp:73-83 | after running_ was cleared at most one more callback begins, that of the pass in progress, and none after the join, until the timer is started again |
| GracefulTimer.NothingAddedAfterClear | other/timer/dualTimer/timer_demo.cpp:90-93 | once stop has cleared the tables nothing is added until the timer is started again |
| GracefulTimer.EveryTimerKeepsItsPromises | other/timer/dualTimer/timer_demo.cpp:157-317 | for every timer object, through all calls and passes of all threads it has seen: a callback runs at most once, never once its timer was cancelled, not early, in order of expiry and not while another runs, and none is active without a manager |
| TimeWheel.TimeWheel.AddTimer | other/timer/timeWheel.cpp:17-22 | the callback is due t modulo slots ticks after the next one, t being the delay in intervals rounded up: (t - 1) * interval < delay <= t * interval for every delay that is not negative |
| TimeWheel.TimeWheel.Tick | other/timer/timeWheel.cpp:27-36 | exactly the callbacks due at this tick run, in the order in which they were added, and their entries leave the table |
| TimeWheel.DueInOrder | other/timer/timeWheel.cpp:27-36 | what a tick calls are the callbacks of exactly the entries due then, in the order in which they were added |
| TimeWheel.RunsExactlyOnceWhenDue | other/timer/timeWheel.cpp:17-36 | read off the invariant of the wheel: every timer runs exactly once, at the tick at which it is due |
| TimeWheel.CallIsInTime | other/timer/timeWheel.cpp:17-36 | a wheel calls a timer in the first tick that is no earlier than its delay, which is not negative, if and only if the delay is at most slots - 1 intervals, and otherwise early by whole turns |
| TimeWheel.WheelIsExact | other/timer/timeWheel.cpp:17-36 | a wheel whose timers all have such delays is an exact deadline table: every call comes no earlier than the delay and less than one interval later, and every timer whose tick has passed has been called as often as it was added |
| CanSignal.ParseRawValue | other/timer/state.cpp:15-31 | the bits from the start bit on, or-ed together up to the end of the message, sign-extended for signed signals |
| CanSignal.GatherOne | other/timer/state.cpp:24 | or-ing in the next bit adds it |
| CanSignal.DecodesField | other/timer/state.cpp:15-31 | for a signal inside the message the raw value is (little-endian value / 2^start) mod 2^length, sign-extended |
| CanSignal.SignExtensionUndoesTwosComplement | other/timer/state.cpp:27-29 | sign extension yields the value that the two's complement pattern stands for |
| CanSignal.DecodingUndoesEncoding | other/timer/state.cpp:15-31 | decoding a message yields the value encoded in it, whatever its other bits are |
| CanSignal.OneRawUnit | other/timer/state.cpp:70 | a raw value of 0 stands for the offset, and each further raw unit adds the scaling factor |
| CanSignal.CanSignalJumpDetector.ProcessCanMessage | other/timer/state.cpp:64-91 | over any trace of messages the calls of the callback are exactly the jumps between neighbouring valid values since it was set |
| CanSignal.CanSignalJumpDetector.Observe | other/timer/state.cpp:75-90 | the first valid value only initializes; a later one is compared with the one before, and the callback is called with the two exactly if it is set and they meet the condition; the value becomes the last one |
| CanSignal.CanSignalJumpDetector.SetJumpCallback | other/timer/state.cpp:59-61 | the callback is set |
| CanSignal.ValidValuesAreFiltered | other/timer/state.cpp:64-73 | the valid values are exactly the scaled raw values of the messages with the signal's id that lie between minimum and maximum |
| CanSignal.JumpsAreNeighbours | other/timer/state.cpp:38-52 | a pair is reported if and only if it is a pair of neighbouring valid values that differ, that equal the two given values, or that lie in the two given ranges, as the condition asks |
| BoundedStack.Stack.Push | primer_plus/chap14/14_4/14_4_3/stcktp1.h:41-51 | appends the item unless the stack is full |
| BoundedStack.Stack.Pop | primer_plus/chap14/14_4/14_4_3/stcktp1.h:53-63 | removes and returns the last item, or fails on an empty stack |
| BoundedStack.Stack.Copy | primer_plus/chap14/14_4/14_4_3/stcktp1.h:31-39 | the same contents in an array of its own |
| BoundedStack.Stack.Assign | primer_plus/chap14/14_4/14_4_3/stcktp1.h:65-77 | the same contents in a new array; self-assignment changes nothing |
| BoundedStack.OneTurn | primer_plus/chap14/14_4/14_4_3/stkoptr1.cpp:32-39 | one pass of the loop: it pushes the next name if the stack is empty, or if it is not full, the coin says so and names are left; otherwise it pops the top name to the out basket |
| BoundedStack.MoveNames | primer_plus/chap14/14_4/14_4_3/stkoptr1.cpp:28-40 | for every capacity of at least 1 and all coins the loop stays in bounds, ends after exactly two turns for each name, and out is a permutation of in without the order largest, smallest, middle that fits the stack |
| BoundedStack.ReachableOrders | primer_plus/chap14/14_4/14_4_3/stkoptr1.cpp:28-40 | for every capacity of at least 1 the orders that some coins produce are exactly the permutations that avoid that pattern and never need more of the stack than there is |
| BoundedStack.NextOutputIsOnTop | primer_plus/chap14/14_4/14_4_3/stkoptr1.cpp:34-39 | on the way to such an order the next output, once pushed, is on top |

## Left out

- DDS entity creation, QoS, transports, discovery logging, serialization and console output: library calls and printing; only match, take and write events matter to the protocol. The client's discovery callback changes no state.
- Completion.CompletionReachableExactly: states when a completing continuation exists, not that every fair one completes, because matching, delivery and the result of a write are up to DDS.
- RequestReply.ReportedRepliesAreLater: after an unmatch and a new match DDS may hand out again what a server has taken before; the model, in which a reader hands out each sample once, does not capture this.
- ServerApp.ServerApp.TakeSample: the take writes the shared request object outside of the lock while the reply thread may be reading it; the model makes the take one step and the reading another, so a reply or a calculation that mixes fields of two samples is not covered.
- ServerApp.ServerApp.OnDataAvailable: describes a call without interference, as does ClientApp.ClientApp.OnDataAvailable; with interference each call is the steps it consists of, which the lemmas about histories and runs interleave in every way.
- ClientApp.ClientApp.SendRequests: describes the four writes without interference; RequestReply interleaves them with everything else.
- Singleton.Registry.GetInstance: describes a call without interference; the state machine below it covers the threads.
- DualModeTimer.DualModeTimer.Stop: the threads in which callbacks run, and waiting for them, are not modelled, only the start of each callback.
- Lost wake-ups, time-outs of condition variables and weak memory orders: waits are modelled by the condition that ends them, and atomic actions are sequentially consistent.
- DualModeTimer.DualModeTimer.AddNonBlockingTimer: ids are unbounded integers, so reuse after 2^31 timers is not modelled; the same holds for GracefulTimer.GracefulTimer.AddNonBlockingTimer and for the int counters of the queue and the list.
- The blocking timers and the promises of dualtimer.cc, and addBlockingTimer of timer_demo.cpp: they only wait and forward the result of a non-blocking timer.
- TimeWheel.TimeWheel.Tick: callbacks do not add timers while they run, and the int sums of addTimer do not overflow; the worker thread's sleeping is not modelled.
- SmartPtr.SmartPtr.Attach: the raw pointer must not belong to a SmartPtr already, as the source would delete it twice otherwise; Detach, which clears a count still in use, is not modelled.
- JTList.JTList.Remove: the node must belong to the list, as the source follows a null pointer otherwise; RemoveAll (`delete this`) and the undefined copy operations are not modelled.
- JTList.JTListIterator.IsDone: the list must not be empty, as the source reads through the tail.
- CanSignal.ParseRawValue: signal lengths for which the C++ shifts overflow an int32 are excluded; physical values are reals instead of floats.
- CanSignalConfig and JumpCondition are used but not declared in the repository; the model takes their fields from their uses. A jump condition of another type is never met.
- BoundedStack.MoveNames: the coins are given as a sequence instead of coming from rand; the capacity must be positive, as the source reads past its input otherwise.
- Singleton: DatabaseConnection::destroy is not synchronized with getInstance and is not modelled.
- The other demos of the repository (sockets, files, design patterns that only print, further bounded stacks and value classes): they would only add easy members.
