# rustdv: verified models of the concurrent core

rustdv is a simulator-driven verification framework in Rust: a single-threaded executor
driven by simulator callbacks, with a UVM-style methodology layer (sequencer and driver,
configuration database, TLM channel, component phases) on top. This project models its
state machines and its four-state vector arithmetic in Dafny and proves what they keep over
every run, every interleaving and every input.

Code between two awaits runs atomically, so each concurrent part is a machine of atomic
steps whose runs are all interleavings. Where the source updates fields in place there is
also a class whose methods are tied to the machine's functions, so the theorems about runs
are theorems about those methods. User code (the futures that are polled, `Drop` code,
callback closures, run bodies, checks) is an arbitrary input.

| file | models |
|---|---|
| `Handshake.dfy`, `HandshakeProgress.dfy` | the sequencer/driver handshake: safety, deadlock freedom, exact run length, the polling bound |
| `Responses.dfy`, `Sequencer.dfy` | the response queue; the mutable sequencer and sequence context |
| `ExecutorModel.dfy`, `ExecutorRuns.dfy`, `ExecutorJoins.dfy`, `ExecutorResults.dfy`, `ExecutorCalls.dfy`, `Executor.dfy` | the executor: invariant, whole-run results, awaiting a task and what it yields, what calls lead to, the mutable executor |
| `Channel.dfy` | the bounded channel with counted endpoints and parked wakers |
| `Glob.dfy`, `ConfigDb.dfy` | the glob matcher as a specificity order; resolution of configuration |
| `Callback.dfy` | ownership of simulator callbacks |
| `RunPhase.dfy`, `TreeWalk.dfy`, `ExtractWalk.dfy`, `CheckWalk.dfy` | the run phase over a component tree, and the extract and check walks after it |
| `BigUint.dfy`, `LogicArray.dfy`, `Signal.dfy` | words and bits, four-state vectors, reads and writes of a signal |
| `SplitMix.dfy` | the SplitMix64 generator |
| `Basics.dfy` | shared wrappers |

`dafny verify dfyconfig.toml` checks everything.

Results that a reader of the code may not expect:

- `get` on the ConfigDb documents "most recent write" (`rustdv/rustdv-methodology/src/config.rs:238-239`)
  and a comment at line 261 says ties keep insertion order. The store is an ordered map, so
  between two spellings of one language (`*` and `**`) the byte order of the patterns
  decides. The model follows the code; `ConfigDb.EarlierWriteWins` is a family of
  counterexamples, `ConfigDb.StarBeatsLaterStarStar` one at every path, and `ConfigDb.DocumentedRuleHoldsIff` says exactly when the documented
  rule holds.
- A build-time write by a setter at depth zero has the same precedence as a write outside
  build (`ConfigDb.OutsideBuildBeatsEarlier`).
- The sort comparator is not an order on incomparable patterns (`ConfigDb.ComparatorIsNotAnOrder`).
- A receiver that was told `Disconnected` can receive again, exactly when a `send` future
  outlived its sender (`Channel.DisconnectIsFinalIff`; a run that does so is
  `Channel.DisconnectedThenReceived`).
- `TryFrom<&LogicArray>` drops high bits silently, while the signal reads refuse a wider
  signal (`LogicArray.IntegerRoundTrip`, `Signal.GetUnsigned`).
- A test's tasks are all gone after it exactly when none of the `Drop` code run at its end
  spawns (`ExecutorRuns.IsolationHoldsIff`, with `ExecutorRuns.SpawningDropEscapes` as witness).
- A recurring callback fired from inside its own closure aborts the process
  (`Callback.OnlyReentryAborts`, `Callback.SecondFiring`).

## Model

| member | source | states |
|---|---|---|
| Handshake.QueueKept | rustdv/rustdv-methodology/src/sequence.rs:238-286 | every step keeps the queue free of duplicates, and says exactly which ticket leaves it and which enters; a requeue loses and duplicates nothing |
| Handshake.StepKeepsInv | rustdv/rustdv-methodology/src/sequence.rs:238-298 | every atomic step keeps the whole invariant: stages, payloads, owners |
| Handshake.RunKeepsInv | rustdv/rustdv-methodology/src/sequence.rs:205-298 | the invariant holds after every run |
| Handshake.HandshakeIsSafe | rustdv/rustdv-methodology/src/sequence.rs:112-298 | in every reachable state each slot is in exactly one stage, no item is driven twice, a driven item carries exactly the payload given to `finish_item` for its ticket, and `finish_item` returns only after `item_done` for that ticket |
| Handshake.ExpectsHold | rustdv/rustdv-methodology/src/sequence.rs:247-251 | the driver's `expect`s cannot fail: `ready` implies a payload, and a driving driver has a current item |
| Handshake.BlockingRunIsFifo | rustdv/rustdv-methodology/src/sequence.rs:238-259 | with `get_next_item` the driven tickets, the held one and the queue are consecutive numbers in order |
| Handshake.DrivenInStartOrder | rustdv/rustdv-methodology/src/sequence.rs:238-259 | the k-th item driven is the k-th started, with the payload given for it |
| HandshakeProgress.StepDecreasesMeasure | rustdv/rustdv-methodology/src/sequence.rs:457-490 | every step but an idle driver call lowers the remaining work by exactly one |
| HandshakeProgress.NeverStuck | rustdv/rustdv-methodology/src/sequence.rs:238-298 | a state with an unfinished sequence has an enabled step other than a poll |
| HandshakeProgress.BlockingRunMeasure | rustdv/rustdv-methodology/src/sequence.rs:238-298 | along a blocking run the remaining work falls by the length of the run |
| HandshakeProgress.InitialMeasure | rustdv/rustdv-methodology/src/sequence.rs:457-490 | the work at the start is seven steps per item |
| HandshakeProgress.AtMostOneGranted | rustdv/rustdv-methodology/src/sequence.rs:238-298 | after every blocking run a slot is granted and not done iff the driver holds it, so at most one is |
| HandshakeProgress.BlockingRunsComplete | rustdv/rustdv-methodology/src/sequence.rs:238-298 | deadlock freedom and termination: no blocking run exceeds seven steps per item, it has that length iff all sequences are finished, and it cannot be extended iff they are |
| HandshakeProgress.FinishedMeansAllDriven | rustdv/rustdv-methodology/src/sequence.rs:457-490 | when all sequences finish, for any mix of calls, tickets 1 to the number of items exist and each was driven, released and returned |
| HandshakeProgress.AtMostQueueLengthPollsFail | rustdv/rustdv-methodology/src/sequence.rs:261-286 | with m items queued, filled before they are popped again, at most m consecutive polls return nothing |
| HandshakeProgress.NobodyStarvesBehindUnfilled | rustdv/rustdv-methodology/src/sequence.rs:261-286 | with m tickets queued, after m polls that hand nothing over, with any sequence steps in between, every one of them is granted |
| HandshakeProgress.FilledIsHandedOver | rustdv/rustdv-methodology/src/sequence.rs:261-286 | a filled item with k tickets ahead of it is handed over at the latest by the (k+1)-th poll |
| Responses.Position | rustdv/rustdv-methodology/src/sequence.rs:171-179 | the oldest response the request accepts, or none |
| Responses.StepKeepsCorrelation | rustdv/rustdv-methodology/src/sequence.rs:148-203 | every push and get keeps the correlation invariant |
| Responses.Run | rustdv/rustdv-methodology/src/sequence.rs:148-203 | after any run the pending responses are the pushed minus the taken in push order, each delivered at most once, only to its ticket or to an any-ticket request, and no parked waiter has a matching response |
| Responses.EachResponseDeliveredOnce | rustdv/rustdv-methodology/src/sequence.rs:171-203 | a response is pending iff it was not delivered, and no two deliveries are of the same one |
| Responses.AnswersArePushed | rustdv/rustdv-methodology/src/sequence.rs:148-203 | computed from the calls: the pushed responses are those of the push calls with their tickets, in order, and each answer is the response of one of them, to a request that accepts its ticket |
| Responses.UnansweredIsWoken | rustdv/rustdv-methodology/src/sequence.rs:186-203 | a get that was not answered stays parked until the next push and is woken by it |
| Responses.PushWakesEveryWaiter | rustdv/rustdv-methodology/src/sequence.rs:148-155 | a push wakes all parked waiters and leaves none parked |
| Responses.ResponseQueue.Push | rustdv/rustdv-methodology/src/sequence.rs:148-155 | the mutable push is the machine's, and the tasks woken are those parked |
| Responses.ResponseQueue.FindPosition | rustdv/rustdv-methodology/src/sequence.rs:171-179 | the search loop finds the oldest acceptable response |
| Responses.ResponseQueue.TryGetResponse | rustdv/rustdv-methodology/src/sequence.rs:171-179 | removes and returns the oldest acceptable response, if any |
| Responses.ResponseQueue.PollGetResponse | rustdv/rustdv-methodology/src/sequence.rs:186-203 | one poll: the oldest acceptable response, or the task is parked |
| Sequencer.SeqrInner.Submit | rustdv/rustdv-methodology/src/sequence.rs:464-475 | enqueues a slot under a fresh ticket |
| Sequencer.SeqrInner.HandOver | rustdv/rustdv-methodology/src/sequence.rs:486-487 | stores the payload and raises `ready` |
| Sequencer.SeqrInner.PollQueue | rustdv/rustdv-methodology/src/sequence.rs:240-245 | pops and grants the oldest ticket, or parks without change |
| Sequencer.SeqrInner.PollReady | rustdv/rustdv-methodology/src/sequence.rs:246-258 | once ready, takes the payload under its ticket and makes it current |
| Sequencer.SeqrInner.TryNextItem | rustdv/rustdv-methodology/src/sequence.rs:261-286 | hands over the head if filled, otherwise requeues it |
| Sequencer.SeqrInner.ItemDone | rustdv/rustdv-methodology/src/sequence.rs:288-298 | releases the current slot and pushes the response under its ticket |
| Sequencer.SeqrInner.PutResponse | rustdv/rustdv-methodology/src/sequence.rs:300-302 | pushes a late response without touching the handshake |
| Sequencer.SeqCtx.StartItem | rustdv/rustdv-methodology/src/sequence.rs:457-475 | both error cases leave everything unchanged; otherwise a fresh ticket is queued and remembered |
| Sequencer.SeqCtx.FinishItem | rustdv/rustdv-methodology/src/sequence.rs:481-490 | error without a started item; otherwise fills that item's slot and returns its ticket |
| ExecutorModel.DoKeepsWF | rustdv/rustdv-sim/src/executor.rs:165-331 | any call by user code, with nested `Drop` code, keeps the executor's invariant |
| ExecutorModel.DoExtends | rustdv/rustdv-sim/src/executor.rs:165-331 | a call only appends to the run queue, and can do nothing to an existing task but remove it |
| ExecutorModel.EndPollOk | rustdv/rustdv-sim/src/executor.rs:273-317 | Ready, Pending and panic all end in a quiet, well-formed state that keeps dead tasks dead and settled results settled |
| ExecutorModel.PollOk | rustdv/rustdv-sim/src/executor.rs:250-317 | a whole poll keeps the invariant, polls exactly the head, and keeps the rest of the queue in place |
| ExecutorModel.DrainOk | rustdv/rustdv-sim/src/executor.rs:236-248 | draining keeps the invariant, empties the woken queue, and only appends to the run queue |
| ExecutorModel.TurnOk | rustdv/rustdv-sim/src/executor.rs:222-234 | a turn of the loop keeps the invariant |
| ExecutorRuns.QueuedExactlyOnce | rustdv/rustdv-sim/src/executor.rs:165-264 | in every reachable state a Scheduled task is in the run queue exactly once and a Pending one not at all |
| ExecutorRuns.NoLostWakeup | rustdv/rustdv-sim/src/executor.rs:222-317 | when the loop ends every surviving task is Pending and was polled since its last wake |
| ExecutorRuns.FirstComeFirstPolled | rustdv/rustdv-sim/src/executor.rs:222-264 | a queued task is polled or removed before any task not queued ahead of it |
| ExecutorRuns.Fairness | rustdv/rustdv-sim/src/executor.rs:222-264 | between two polls of one task every task Scheduled at the first has been polled or removed |
| ExecutorRuns.CompletedOnce | rustdv/rustdv-sim/src/executor.rs:75-88 | at most one completion per task, agreeing with the stored result, absorbing for the rest of the run |
| ExecutorJoins.CompletionWakesJoiners | rustdv/rustdv-sim/src/executor.rs:75-88 | over every run: whoever was parked on a task that has since completed (finished, cancelled or panicked) has been polled in between or is woken and waiting, and nobody is parked on a completed task |
| ExecutorJoins.JoinersPolledWhenIdle | rustdv/rustdv-sim/src/executor.rs:222-234 | when the loop ends every surviving joiner of a completed task has been polled again |
| ExecutorResults.AwaitYieldsLastPoll | rustdv/rustdv-sim/src/executor.rs:181-188 | in every run, after a poll that is ready with v or panics, awaiting the task yields exactly that until somebody takes it |
| ExecutorResults.AwaitYieldsCancelled | rustdv/rustdv-sim/src/executor.rs:189-197 | a cancelled task yields that it was cancelled until that is taken |
| ExecutorResults.HandedOutOnce | rustdv/rustdv-sim/src/executor.rs:418-435 | after a handle of a completed task was polled or its result taken, every later request finds none |
| ExecutorCalls.RousedOutsideIsPolled | rustdv/rustdv-sim/src/executor.rs:64-68 | a task woken or spawned from outside the loop has been polled since when the loop next ends, or is gone |
| ExecutorCalls.RousedInPollIsPolled | rustdv/rustdv-sim/src/executor.rs:222-297 | a task woken or spawned inside a poll, the polled one included, has been polled after that poll when the loop next ends, or is gone |
| ExecutorCalls.AwaitIsTold | rustdv/rustdv-sim/src/executor.rs:426-435 | an await that was answered "not yet" inside a poll leads to the waiter being woken or polled once the task has completed |
| ExecutorCalls.SelfCancelTakesEffect | rustdv/rustdv-sim/src/executor.rs:282-331 | a task that cancels itself in a poll is gone after the turn, however the poll ends |
| ExecutorCalls.QueuedInWakeOrder | rustdv/rustdv-sim/src/executor.rs:236-248 | pending tasks are queued in the order of their first wakes |
| ExecutorRuns.CancelEachRemovesExactly | rustdv/rustdv-sim/src/executor.rs:321-331 | cancelling a list removes the tasks listed and no other, whatever the `Drop` code calls, except what that code itself cancels |
| ExecutorRuns.DeferredCancelHitsOnlyItself | rustdv/rustdv-sim/src/executor.rs:282-297 | for all `Drop` code: the deferred cancellations are nothing unless the polled task cancelled itself in this poll, and then exactly one cancellation of it; leftovers of earlier polls hit nobody |
| ExecutorRuns.NoTaskSurvivesItsTest | rustdv/rustdv-runner/src/rustdv_runner.rs:157-193 | after the survivors are cancelled no task of the test is live or polled for the rest of the regression |
| ExecutorRuns.OlderTasksUnaffected | rustdv/rustdv-sim/src/executor.rs:336-348 | a task older than the watermark stays as it is unless the survivors' `Drop` code cancels it |
| ExecutorRuns.IsolationHoldsIff | rustdv/rustdv-sim/src/executor.rs:336-348 | for `Drop` code that cancels nothing: no task of the test is live after the survivors are cancelled iff none of the `Drop` code that was run spawns |
| ExecutorRuns.SpawningDropEscapes | rustdv/rustdv-sim/src/executor.rs:336-348 | a concrete input where isolation fails |
| ExecutorRuns.MidPollOk | rustdv/rustdv-sim/src/executor.rs:250-275 | in every run, whatever a poll has called so far, the state is well formed and the task still the polled one |
| Executor.Executor.SpawnNamed | rustdv/rustdv-sim/src/executor.rs:165-218 | spawning is the machine's step and returns the fresh id |
| Executor.Executor.CompleteTask | rustdv/rustdv-sim/src/executor.rs:81-88 | the wake loop is the machine's completion |
| Executor.Executor.CancelTask | rustdv/rustdv-sim/src/executor.rs:321-331 | cancellation is deferred for the task being polled, immediate otherwise, with its `Drop` code |
| Executor.Executor.PollHandle | rustdv/rustdv-sim/src/executor.rs:426-435 | answers the stored result of a done task, which is taken, or "not yet" and parks the waiter |
| Executor.Executor.Result | rustdv/rustdv-sim/src/executor.rs:418-423 | answers the stored result and takes it, or that there is none |
| Executor.Executor.Drain | rustdv/rustdv-sim/src/executor.rs:236-248 | the drain loop schedules exactly the woken pending tasks, in wake order |
| Executor.Executor.CancelAfter | rustdv/rustdv-sim/src/executor.rs:336-348 | collects exactly the live tasks at or above the watermark and cancels each |
| Executor.Executor.PollOne | rustdv/rustdv-sim/src/executor.rs:250-317 | the whole of `poll_task`, including the stale-id exit |
| Executor.Executor.Conclude | rustdv/rustdv-sim/src/executor.rs:277-316 | the three ways a poll ends |
| Executor.Executor.PerformAll | rustdv/rustdv-sim/src/executor.rs:222-331 | user code, a list of calls with nested `Drop` code, is the machine's; a call of `run_until_idle` in it goes to the real method |
| Executor.Executor.RunUntilIdle | rustdv/rustdv-sim/src/executor.rs:222-234 | a call while the loop is running, from any state user code can be in, changes nothing; otherwise the loop is that many turns of the machine, and when it ends idle every live task is Pending and polled since its last wake |
| Executor.DropCodeIsLast | rustdv/rustdv-sim/src/executor.rs:326-330 | outside the loop the rest of a cancelled task's `Drop` code is the same as calls made after the cancellation |
| Channel.ApplyKeepsInv | rustdv/rustdv-methodology/src/channel.rs:43-278 | every operation keeps order, bound and parking invariant |
| Channel.ChannelRefinesFifo | rustdv/rustdv-methodology/src/channel.rs:43-278 | in every run accepted == received + buffer, the bound holds, a parked sender means full and a live receiver, a parked receiver or peeker means empty and a live sender |
| Channel.ParkedOrWoken | rustdv/rustdv-methodology/src/channel.rs:56-65 | whoever is parked stays parked or is woken, and is woken when it could go on |
| Channel.SentIsReceivedThenBuffered | rustdv/rustdv-methodology/src/channel.rs:111-254 | computed from calls and answers alone: the items reported as sent are, in order, the values handed to receivers followed by what is buffered |
| Channel.HistoriesAreAnswers | rustdv/rustdv-methodology/src/channel.rs:111-254 | the accepted items are those of the sends answered Ok, the received ones the values handed out |
| Channel.PendingIsWoken | rustdv/rustdv-methodology/src/channel.rs:144-278 | over every run a poll answered pending is woken before its operation can go through |
| Channel.EndpointsCounted | rustdv/rustdv-methodology/src/channel.rs:92-188 | the endpoint counts are what was there plus clones minus drops |
| Channel.DisconnectIsFinalIff | rustdv/rustdv-methodology/src/channel.rs:144-165 | nothing more is accepted after a disconnect iff no orphaned send is polled with a receiver alive |
| Channel.DisconnectedThenReceived | rustdv/rustdv-methodology/src/channel.rs:144-254 | a run from creation in which a receiver told Disconnected receives the item afterwards |
| Channel.ChanInner.constructor | rustdv/rustdv-methodology/src/channel.rs:70-85 | one endpoint each, and capacity zero coerced to one |
| Channel.ChanInner.SendPoll | rustdv/rustdv-methodology/src/channel.rs:144-165 | Disconnected, accepted or parked, with the machine's new state |
| Channel.ChanInner.TrySendItem | rustdv/rustdv-methodology/src/channel.rs:121-132 | the item comes back exactly when it was not accepted |
| Channel.ChanInner.RecvPoll | rustdv/rustdv-methodology/src/channel.rs:233-254 | the oldest unreceived accepted item, Disconnected only when drained, or parked |
| Channel.ChanInner.TryRecvItem | rustdv/rustdv-methodology/src/channel.rs:198-206 | the front item or nothing |
| Channel.ChanInner.PeekPoll | rustdv/rustdv-methodology/src/channel.rs:260-278 | the front item, which stays |
| Channel.ChanInner.DropSenderEnd | rustdv/rustdv-methodology/src/channel.rs:101-109 | the last sender wakes all receivers |
| Channel.ChanInner.DropReceiverEnd | rustdv/rustdv-methodology/src/channel.rs:180-188 | the last receiver wakes all senders |
| Glob.MatchIsMeaning | rustdv/rustdv-methodology/src/config.rs:155-165 | the recursive matcher holds iff the path is the pattern with each star replaced by some string |
| Glob.MatchReflexive | rustdv/rustdv-methodology/src/config.rs:155-171 | every pattern matches itself |
| Glob.MatchTransitive | rustdv/rustdv-methodology/src/config.rs:155-171 | matching is transitive although a star is literal on the left |
| Glob.SpecificIffIncluded | rustdv/rustdv-methodology/src/config.rs:169-171 | the specificity test is exactly language inclusion |
| Glob.SpecificIffIncludedOnConcretePaths | rustdv/rustdv-methodology/src/config.rs:169-171 | inclusion over star-free paths alone decides it |
| ConfigDb.WinnerIsUnique | rustdv/rustdv-methodology/src/config.rs:242-268 | at most one write decides a lookup |
| ConfigDb.ShallowestSetterWins | rustdv/rustdv-methodology/src/config.rs:206-217 | during build the shallowest setter wins at a pattern in any write order |
| ConfigDb.ParentOutranksChild | rustdv/rustdv-methodology/src/config.rs:199-291 | on the calls: of a set from context p and one from p.q in build, to the same path and field, a lookup there returns the entry set from p in either order |
| ConfigDb.ChildNeverOutranks | rustdv/rustdv-methodology/src/config.rs:206-217 | in every history the write from p.q does not decide a lookup the write from p competes for |
| ConfigDb.DepthOfChild | rustdv/rustdv-methodology/src/config.rs:374-380 | a child context is deeper by one plus its own dots |
| ConfigDb.DepthAdds | rustdv/rustdv-methodology/src/config.rs:374-380 | depth adds up over joined paths and is zero exactly without a dot |
| ConfigDb.ResolveJoins | rustdv/rustdv-methodology/src/config.rs:174-181 | a context and an offset address the joined path, and joining is associative |
| ConfigDb.WriteOrderIrrelevant | rustdv/rustdv-methodology/src/config.rs:206-217 | when no two relevant writes tie in precedence at one pattern (setters at different depths during build), every reordering of the writes resolves to the same write |
| ConfigDb.OutsideBuildBeatsEarlier | rustdv/rustdv-methodology/src/config.rs:212-217 | a write outside build beats all earlier ones at its pattern |
| ConfigDb.PutReflects | rustdv/rustdv-methodology/src/config.rs:225-232 | the store always holds the latest write per pattern, field and precedence |
| ConfigDb.SortedHead | rustdv/rustdv-methodology/src/config.rs:261-264 | for comparable candidates the stable sort is sorted, a permutation (equal multisets), and headed by the first most specific one |
| ConfigDb.SortedHeadWins | rustdv/rustdv-methodology/src/config.rs:250-265 | its head carries the entry of the winning write |
| ConfigDb.TopPrecedence | rustdv/rustdv-methodology/src/config.rs:255-257 | the highest precedence stored |
| ConfigDb.CollectCandidates | rustdv/rustdv-methodology/src/config.rs:252-260 | all matching patterns holding the field, once each, in key order, with their entry of highest precedence |
| ConfigDb.ConfigDb.Set | rustdv/rustdv-methodology/src/config.rs:199-233 | appends to the history exactly this write, with the setter's depth |
| ConfigDb.ConfigDb.Get | rustdv/rustdv-methodology/src/config.rs:242-291 | a miss iff no write is relevant; otherwise, for comparable patterns, the winning write's entry or a type mismatch with path, field and both types |
| ConfigDb.ConfigDb.Clear | rustdv/rustdv-methodology/src/config.rs:365-369 | forgets all writes and leaves build mode |
| ConfigDb.EarlierWriteWins | rustdv/rustdv-methodology/src/config.rs:238-264 | between equally specific patterns key order beats write order |
| ConfigDb.StarBeatsLaterStarStar | rustdv/rustdv-methodology/src/config.rs:238-264 | at every path an earlier write to `*` wins where the documentation names the later one to `**` |
| ConfigDb.DocumentedRuleHoldsIff | rustdv/rustdv-methodology/src/config.rs:238-264 | for any set of patterns: every history resolves as documented iff no two of those reaching the path are spellings of one language |
| ConfigDb.ComparatorIsNotAnOrder | rustdv/rustdv-methodology/src/config.rs:261-264 | equality under the comparator is not transitive: a concrete triple |
| Callback.RunKeepsInv | rustdv/rustdv-gpi/src/rustdv_gpi.rs:896-1031 | the ownership invariant over every run |
| Callback.CallbackOwnership | rustdv/rustdv-gpi/src/rustdv_gpi.rs:896-1031 | strong count == handle + C side + active trampolines; each release at most once; a one-shot runs at most once; no step finds the state freed |
| Callback.EveryFiringRuns | rustdv/rustdv-gpi/src/rustdv_gpi.rs:944-986 | in every run a recurring closure ran once per firing but the aborting one, and a one-shot ran once if it fired and not otherwise |
| Callback.RegisteredIff | rustdv/rustdv-gpi/src/rustdv_gpi.rs:919-972 | registered exactly as long as the handle was not dropped and, for a one-shot, it has not fired; detaching does not end it |
| Callback.FreedExactlyWhenUnreachable | rustdv/rustdv-gpi/src/rustdv_gpi.rs:928-986 | freed iff nothing can reach it, and then nothing can happen; no leak and no dangling step |
| Callback.OnlyReentryAborts | rustdv/rustdv-gpi/src/rustdv_gpi.rs:974-981 | the second borrow panics iff a recurring callback fires inside its own closure |
| Callback.SecondFiring | rustdv/rustdv-gpi/src/rustdv_gpi.rs:954-981 | after a first firing a one-shot cannot fire again, and a recurring callback can and aborts |
| Callback.DetachedOneShotSelfCleans | rustdv/rustdv-gpi/src/rustdv_gpi.rs:920-925 | a detached one-shot is freed once fired and returned |
| Callback.DetachedRecurringLives | rustdv/rustdv-gpi/src/rustdv_gpi.rs:920-925 | a detached recurring callback stays registered in every continuation |
| Callback.DropInsideClosureIsSafe | rustdv/rustdv-gpi/src/rustdv_gpi.rs:950-953 | a drop inside the closure keeps the state alive until the trampoline ends |
| Callback.Registration.constructor | rustdv/rustdv-gpi/src/rustdv_gpi.rs:988-1031 | registering leaves two references |
| Callback.Registration.Trampoline | rustdv/rustdv-gpi/src/rustdv_gpi.rs:944-981 | entering the trampoline is the machine's Fire, and calls the closure unless a recurring one is already running |
| Callback.Registration.DropHandle | rustdv/rustdv-gpi/src/rustdv_gpi.rs:928-942 | dropping the handle is the machine's Drop |
| RunPhase.FirstErrorMeaning | rustdv/rustdv-methodology/src/component.rs:698-704 | the joined verdict is Ok iff all are, else the first error in order |
| RunPhase.TakeChildren | rustdv/rustdv-macros/src/rustdv_macros.rs:448-460 | moves out exactly the movable children present, in field order, and leaves the rest |
| RunPhase.RestoreChildren | rustdv/rustdv-macros/src/rustdv_macros.rs:461-471 | each component goes back to the slot of its name |
| RunPhase.FindOwn | rustdv/rustdv-methodology/src/factory.rs:90-97 | whatever the moved components became, each slot gets back the one taken from it |
| RunPhase.RunAll | rustdv/rustdv-methodology/src/component.rs:642-712 | take, in-place walk, joined run and restore equal a run defined without moving anything, on every outcome |
| TreeWalk.RunKeepsShape | rustdv/rustdv-methodology/src/component.rs:642-712 | for every assignment of outcomes, including both error exits, the tree keeps every component in its place at every level |
| TreeWalk.FailingBody | rustdv/rustdv-methodology/src/component.rs:590-712 | an error of the run phase is the error of some component's body |
| TreeWalk.EveryBodyRan | rustdv/rustdv-methodology/src/component.rs:590-712 | after a successful run every component ran without failing and is found at its path in the state its body left |
| TreeWalk.OnlyRunStates | rustdv/rustdv-methodology/src/component.rs:590-712 | and every component found in the tree then is one of those |
| ExtractWalk.ExtractAll | rustdv/rustdv-methodology/src/component.rs:724-730 | the walk applies each component's extract once, under its path |
| ExtractWalk.ExtractedComponent | rustdv/rustdv-methodology/src/component.rs:724-730 | every component is found again at its path, extracted |
| ExtractWalk.OnlyExtracted | rustdv/rustdv-methodology/src/component.rs:724-730 | and nothing else is found |
| ExtractWalk.ExtractKeepsShape | rustdv/rustdv-methodology/src/component.rs:724-730 | the tree keeps its shape |
| TreeWalk.RunOkIff | rustdv/rustdv-methodology/src/component.rs:590-712 | the run phase succeeds iff no component's body ends with an error; being stopped is not a failure |
| TreeWalk.WhoRuns | rustdv/rustdv-methodology/src/component.rs:642-712 | if an in-place child fails, the component's body and its movable children do not run and stay as they were; otherwise the body runs even when a movable child fails |
| TreeWalk.FirstFailureIsVerdict | rustdv/rustdv-methodology/src/component.rs:668-704 | the verdict is the error of the first child that fails in field order |
| CheckWalk.VisitsExactlyTheTree | rustdv/rustdv-methodology/src/component.rs:733-739 | the walk visits a path and data iff a component of the tree is reached by that path with that data |
| CheckWalk.OrderedVisits | rustdv/rustdv-methodology/src/component.rs:733-739 | the walk repeats no path and visits parents first |
| CheckWalk.KidNamesDiffer | rustdv/rustdv-macros/src/rustdv_macros.rs:361-368 | the `name[i]` labels of a vector field differ |
| CheckWalk.FoundUnderName | rustdv/rustdv-macros/src/rustdv_macros.rs:334-376 | a child is found under its field's name, an item of a vector under the name with its index in brackets, from `[0]` |
| CheckWalk.DecimalReads | rustdv/rustdv-macros/src/rustdv_macros.rs:361-368 | the index is printed in decimal without leading zeros |
| CheckWalk.SiblingsInOrder | rustdv/rustdv-methodology/src/component.rs:733-739 | all visits through an earlier field or item come before all those through a later one |
| CheckWalk.WalkAfterRun | rustdv/rustdv-methodology/src/component.rs:642-771 | after any run phase the walk visits the same paths in the same order as before it |
| CheckWalk.CheckAll | rustdv/rustdv-methodology/src/component.rs:733-739 | the sink receives every component's errors in visiting order |
| CheckWalk.CheckTree | rustdv/rustdv-methodology/src/component.rs:52-77 | the check verdict is Ok iff the walk reports nothing, and otherwise carries every report of every component in visiting order |
| CheckWalk.ComponentTest | rustdv/rustdv-methodology/src/component.rs:777-815 | the test passes iff no run body fails and every component's check accepts what its extract makes of the data its body left; the walks see the whole tree even after a failed run, whose error takes precedence |
| BigUint.MaskLastIsLow | rustdv/rustdv-gpi/src/value.rs:76-82 | masking the last word is reduction modulo 2^width |
| LogicArray.Extensional | rustdv/rustdv-gpi/src/value.rs:267-289 | a vector is determined by its width and its indexed bits |
| LogicArray.FromVpiWordsIsValid | rustdv/rustdv-gpi/src/value.rs:67-89 | both planes are the words' values modulo 2^width, for any width |
| LogicArray.WordsRoundTrip | rustdv/rustdv-gpi/src/value.rs:67-167 | reading back the words of a vector gives the vector |
| LogicArray.VpiRoundTrip | rustdv/rustdv-gpi/src/value.rs:67-167 | writing back what was read gives the words with unused bits cleared |
| LogicArray.FromBinstr | rustdv/rustdv-gpi/src/value.rs:91-113 | the bit-setting loop computes the vector the string denotes, within its width |
| LogicArray.ParseIndex | rustdv/rustdv-gpi/src/value.rs:91-113 | bit i is the state of the i-th character from the end |
| LogicArray.BinstrRoundTrip | rustdv/rustdv-gpi/src/value.rs:91-178 | parsing what was printed gives the vector back |
| LogicArray.CanonicalRoundTrip | rustdv/rustdv-gpi/src/value.rs:91-178 | printing what was parsed gives the per-character canonical form |
| LogicArray.FromU128 | rustdv/rustdv-gpi/src/value.rs:135-147 | the bit loop gives the value modulo 2^width, as `from_bigint` does |
| LogicArray.IntegerRoundTrip | rustdv/rustdv-gpi/src/value.rs:203-264 | an integer comes back modulo 2 to the smaller of the two sizes |
| LogicArray.BoolConversion | rustdv/rustdv-gpi/src/value.rs:193-201 | the conversion to bool fails iff some bit is x or z, and otherwise is true iff some bit is one |
| LogicArray.UnsignedConversion | rustdv/rustdv-gpi/src/value.rs:203-254 | the conversion fails iff some bit is x or z, with the printed vector as the error, and otherwise its bits are those of the vector |
| LogicArray.EncodingTable | rustdv/rustdv-gpi/src/value.rs:20-35 | the four states, bit by bit, and every other character read as x |
| Signal.GetVpiWordIsMasked | rustdv/rustdv-gpi/src/rustdv_gpi.rs:506-521 | a word read is the masked word, or an error iff a used bit is x or z |
| Signal.GetBigint | rustdv/rustdv-gpi/src/rustdv_gpi.rs:593-600 | the word-wise read equals the integer of the four-state view, or its error |
| Signal.GetUnsigned | rustdv/rustdv-gpi/src/rustdv_gpi.rs:526-589 | refuses a wider signal, otherwise equals the integer of the four-state view, and fits |
| Signal.ReadSucceedsIff | rustdv/rustdv-gpi/src/rustdv_gpi.rs:506-608 | a read gives v iff v fits and every bit of the view is the 0 or 1 of v |
| Signal.ReadFailsIff | rustdv/rustdv-gpi/src/rustdv_gpi.rs:506-521 | a read fails iff some bit of the view is x or z, and the error shows the whole view |
| Signal.MaskVectorWords | rustdv/rustdv-gpi/src/rustdv_gpi.rs:611-618 | masks the last word in place and nothing else |
| Signal.SetVectorWords | rustdv/rustdv-gpi/src/rustdv_gpi.rs:623-664 | hands over the words cut or zero-extended to the width |
| Signal.StoredModulo | rustdv/rustdv-gpi/src/rustdv_gpi.rs:611-664 | the stored planes are the written ones modulo 2^width, for words of any length |
| Signal.WriteThenRead | rustdv/rustdv-gpi/src/rustdv_gpi.rs:604-664 | the view read back holds both written planes modulo 2^width |
| Signal.BigintWriteThenRead | rustdv/rustdv-gpi/src/rustdv_gpi.rs:735-741 | an arbitrary integer reads back modulo 2^width |
| Signal.U64WriteThenRead | rustdv/rustdv-gpi/src/util.rs:44-57 | a u64 reads back modulo 2^width |
| Signal.U128WriteThenRead | rustdv/rustdv-gpi/src/util.rs:59-80 | a u128 reads back modulo 2^width |
| Signal.LogicWriteThenRead | rustdv/rustdv-gpi/src/rustdv_gpi.rs:749-756 | a four-state value is truncated or zero-extended, and unchanged at its own width |
| SplitMix.XorShiftInjective | rustdv/rustdv-sim/src/rng.rs:18-20 | `z ^ (z >> s)` loses nothing |
| SplitMix.OddFactorInvertible | rustdv/rustdv-sim/src/rng.rs:18-19 | wrapping multiplication by an invertible constant is undone by its inverse |
| SplitMix.MixInjective | rustdv/rustdv-sim/src/rng.rs:17-20 | the output mix is injective on 64-bit states |
| SplitMix.UnmixMix | rustdv/rustdv-sim/src/rng.rs:17-20 | an independently defined inverse recovers the state from the output |
| SplitMix.StatesDiffer | rustdv/rustdv-sim/src/rng.rs:16-16 | states less than 2^64 calls apart differ |
| SplitMix.OutputsNeverRepeat | rustdv/rustdv-sim/src/rng.rs:15-21 | for every seed any two of 2^64 consecutive outputs differ |
| SplitMix.PeriodIsExact | rustdv/rustdv-sim/src/rng.rs:15-21 | the state returns to the seed after exactly 2^64 calls |
| SplitMix.Rng.NextU64 | rustdv/rustdv-sim/src/rng.rs:15-21 | the k-th call returns the k-th output and advances the state |

## Left out

- Sequences or drivers dropped in the middle of a handshake, and two drivers on one sequencer: the code is written for one driver that finishes what it takes.
- `Queue` and `Event` are modelled by their contracts (a FIFO whose put never suspends, and a level flag); their own waiter lists are not.
- Ticket numbers and task ids are unbounded; the wrap of a `u64` counter is not modelled. Precedence is an integer without the `i32` bound.
- Executor.Executor.RunUntilIdle: takes what each poll does as a finite script and stops when it is used up, because polls that keep waking each other may go on for ever.
- Executor.Executor.CancelAfter: when called outside the loop, takes `Drop` code that does not itself start the loop; `Executor.DropCodeIsLast` shows that such code is a cancellation followed by turns, which are runs of the machine.
- ExecutorRuns.NoTaskSurvivesItsTest: assumes that the `Drop` code that is run does not spawn, which `ExecutorRuns.IsolationHoldsIff` shows to be needed.
- ExecutorRuns.IsolationHoldsIff: is stated for `Drop` code that cancels no task itself; with cancelling `Drop` code a spawned task may be cancelled again before the end.
- The failure sink, task names and panic messages of the executor.
- Channel futures polled after completion; `len`, `can_send` and `try_peek`.
- ConfigDb.SortedHead: only for pairwise comparable patterns; elsewhere the comparator defines no order and the result of Rust's sort is unspecified. The model's sort is a stable insertion sort.
- `exists`, tracing, rendered values, `dump` and the factory's view of the ConfigDb are not modelled.
- Glob.SpecificIffIncludedOnConcretePaths: needs a byte other than the star that does not occur in the wider pattern.
- Callback: the simulator is assumed not to fire a callback that was removed. Panics of closures are caught and end the trampoline like a return; where they are reported is not modelled.
- RunPhase.RunAll: components own their children, so the tree is modelled on values and `&mut` walks return the updated component; aliasing cannot arise and is not modelled. The bodies are joined, so their steps interleave; only how each ends and the data it leaves enter the result. Run bodies leave child fields alone.
- RunPhase.RestoreChildren: requires distinct field names without brackets, which Rust's struct fields have.
- Build, connect and elaboration walks, and the report and final walks, which come after the verdict of the checks: they have the form of the extract walk.
- CheckWalk.ComponentTest: `extract` and `check` leave child fields alone; the text of the failure message is not modelled, only the list of errors it joins.
- Signal.SetVectorWords: the simulator is a stored word vector; the VPI calls, their flags, and a simulator that supplies no vector (`Unavailable`) are outside the model.
- Signal.GetUnsigned: covers every unsigned width by the word loop of `get_u64` and `get_u128`; the one-word reads are its case of one word. Shifting words in is modelled as adding disjoint powers of two.
- SplitMix: `below`, `u8` and `bool` draw from the same output and are not modelled.
- `TlmFifo`, analysis ports, objections, the factory, logging, xUnit output and the test filter: they would mostly add easy members.
- The Verilator hosts and the cycle ABI, the procedural macros' token generation, the Python tooling and the benchmarks.
