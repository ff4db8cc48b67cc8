# Verified model of continuable

Continuable composes asynchronous operations: a continuable is a lazy operation with a callback, and
chains, connections, loops and coroutines are built from it. This project models the parts of the
library where control flow is hardest to follow, and proves what its users rely on.

| file | what it models |
|---|---|
| `Results.dfy` | the three-case result: values, an exception, or nothing |
| `AsyncTraversal.dfy` | the resumable traversal of nested packs, which refines a plain left-to-right walk |
| `Chaining.dfy` | `then`, `fail`, `next` and executors: nested callbacks that compute a fold over results |
| `Sequential.dfy` | `when_seq` on top of the traversal, `>>` on top of chaining, and their equality |
| `AllConnection.dfy` | the counter protocol of `when_all` and `&&`, in every interleaving |
| `AnyConnection.dfy` | the submitter of `when_any` and its signature |
| `Flattening.dfy` | compilation of `&&` and `\|\|` expressions to flat connections, which changes nothing observable |
| `Remapping.dfy` | mapping and traversal of packs by type, boxes, spreading, and the signature hint |
| `Unboxing.dfy` | what a boxed, filled and unboxed pack delivers: every result in its place |
| `Interleaving.dfy` | whole trees of connections, one atomic step at a time in any interleaving |
| `WhenAll.dfy` | `when_all` from end to end: boxes, protocol and delivered pack |
| `WhenSeq.dfy` | `when_seq` from end to end: boxes, traversal and delivered pack |
| `Ownership.dfy` | who may invoke a continuation, over every program of moves, operators and destructors |
| `Lifetimes.dfy` | what the result of each operation invokes and starts when it is destroyed |
| `Continuables.dfy` | continuables and their ownership as objects on the heap, which execute those programs |
| `Coroutine.dfy` | `co_await`: the hand-off between coroutine and callback |
| `Waiting.dfy` | the blocking wait with mutex, condition variable and unlocker |
| `TimedWaiting.dfy` | the wait with a time limit, where the frame is shared |
| `Looping.dfy` | the asynchronous loop and the loop over a range |
| `Splitting.dfy` | split promises |

`dafny verify dfyconfig.toml` checks everything.

Objects that change are classes: traversal frame, result submitters, ownership, continuable, awaitable,
unlocker, loop frame and range looper have methods that change their fields and are proved against
functions; where several threads meet, each method is proved to be a sequence of steps of the transition
system. Container loops are loops. Chains, connections and packs are data. Concurrency is a transition
system: one action per atomic operation, and every statement is about every sequence of enabled actions.
Callbacks, visitors, programs and bodies of loops are arbitrary functions, of everything seen so far
where the library allows it. A continuable returned from a handler is held by that handler as a subterm,
with the arguments of the enclosing handlers as its captures.

What holds only under a condition is stated with the exact condition:

- A mapping enters a tuple only if the strict matcher accepts one of its elements as a whole, although
  nested packs are documented to work. So `when_all(std::make_tuple(1, c))` does not box or dispatch `c`
  and delivers it unchanged inside the tuple (`NestedContinuableIsMissed`). It is not frozen either: its
  destructor may start it, with the result lost, even if the connection is never invoked
  (`MissedContinuableIsInvoked`). All continuables of a pack are boxed if and only if the gates are open
  where continuables occur (`AllBoxedIffOpen`), and exactly then the delivered pack is the one with every
  continuable replaced (`ResolvedIffOpen`).
- `range_loop` calls its body before it compares, so it is called for precisely the values of the range if
  and only if begin lies before end (`RangeLoopVisitsRangeIff`). Otherwise it goes on for ever, or with
  unsigned numbers until these have wrapped around (`RangeLoopCalls`).
- `>>` gives the left operand the frozen bit of the right one, so it is not in general frozen if and only if some
  operand was, as `&&` and `||` are; `SequenceIsFrozenIffLastOperandWas` says when they agree.
- Freezing is not kept for good. These operations end it: conversion to another data type
  (`ConversionThaws`), `freeze(false)`, `done` and what else consumes a continuable at once, a `>>` with an
  unfrozen right operand, and `then` or `fail` of an unfrozen continuable with the frozen one as the
  argument (`ArgumentThaws`). Of the operations listed in `Ownership.Op`, which are those of
  `continuable_base` and the pack connections, no other one does (`FrozenUnlessThawed`,
  `DormantUnlessThawed`).
- Move assignment to a continuable that still owns something gives that up without invoking it
  (`AssignmentForgetsItsTarget`); `OwnershipIsLinear` accounts for it.
- An unlocker of a blocking wait releases its waiter unless another unlocker is assigned to it while it has
  the ownership (`LeftBehindIffForgotten`).

## Model

| member | source | states |
|---|---|---|
| AsyncTraversal.Frame.constructor | include/continuable/detail/traversal/traverse-async.hpp:154-176 | a new frame has seen nothing, is not finished, and still has every accepted element of its pack to visit |
| AsyncTraversal.Frame.Visit | include/continuable/detail/traversal/traverse-async.hpp:181-186 | the visitor is asked about one element, and its answer is what it says for that element after what it has seen |
| AsyncTraversal.Frame.AsyncContinue | include/continuable/detail/traversal/traverse-async.hpp:188-206 | called only once no loop runs over the pack any more, so the loops a resumption starts are always the only ones; wherever the handler resumes, the frame ends where the plain walk ends |
| AsyncTraversal.Frame.AsyncComplete | include/continuable/detail/traversal/traverse-async.hpp:208-219 | completion happens only when nothing is left, and the finished flag was never set before |
| AsyncTraversal.Frame.Detach | include/continuable/detail/traversal/traverse-async.hpp:318-322 | the flag is set, and was not set before |
| AsyncTraversal.Frame.Fork | include/continuable/detail/traversal/traverse-async.hpp:329-351 | traversing the children of an element leaves exactly what comes after that element, or the frame settled |
| AsyncTraversal.Frame.AsyncTraverseOne | include/continuable/detail/traversal/traverse-async.hpp:353-408 | one element of any kind: either everything after it is still to come, or the traversal detached below it and the frame is settled |
| AsyncTraversal.Frame.AsyncTraverse | include/continuable/detail/traversal/traverse-async.hpp:410-446 | both loops stop at a detach at any depth, even if the inner resumption already ran to the end; otherwise exactly the parents' remaining elements are left |
| AsyncTraversal.Frame.Next | include/continuable/detail/traversal/traverse-async.hpp:468-513 | continuing a saved state, the top cursor advanced and its parents not, ends where the walk of the elements it encodes ends |
| AsyncTraversal.Frame.Resume | include/continuable/detail/traversal/traverse-async.hpp:457-466 | the same for a resumption with a flag of its own, which needs that no other loop is running |
| AsyncTraversal.Frame.ResumePending | include/continuable/detail/traversal/traverse-async.hpp:516-520 | calling a kept resumption is the walk of what was left at the detach, appended to the trace |
| AsyncTraversal.ApplyPackTransformAsync | include/continuable/detail/traversal/traverse-async.hpp:539-575 | for every nested pack and every visitor the traversal does what the walk over the flattened pack does, event by event |
| AsyncTraversal.EveryRunVisitsInOrder | include/continuable/detail/traversal/traverse-async.hpp:319-446 | for any answers and any resumptions: visits so far and elements left are the flattened pack; at every detach the visits and the elements encoded by the saved state are the flattened pack; completion is the last event and happens once, never while a resumption is kept; enough resumptions complete |
| AsyncTraversal.LaterIsSound | include/continuable/detail/traversal/traverse-async.hpp:468-513 | every resume strictly shrinks what is left and keeps the trace sound |
| AsyncTraversal.WalkIsFaithful | include/continuable/detail/traversal/traverse-async.hpp:363-383 | a refused visit is followed by the detach of that element, a detach only by its resumption, and nothing else is interleaved |
| AsyncTraversal.VisitsIndependentOfTheVisitor | include/continuable/detail/traversal/traverse-async.hpp:319-446 | whatever two visitors answer, if every stop is resumed both visit exactly the flattened pack in order |
| AsyncTraversal.ElementIsAtItsPlace | include/continuable/detail/traversal/traverse-async.hpp:353-446 | an element found in the nested pack by going down a path of indices is in the flattened pack, at the place counted from what lies to the left of the path |
| AsyncTraversal.PlacesAreInOrder | include/continuable/detail/traversal/traverse-async.hpp:410-446 | of two elements whose paths part after some common steps, the one whose path goes on further left comes first |
| AsyncTraversal.EveryElementHasAPath | include/continuable/detail/traversal/traverse-async.hpp:353-446 | nothing else is in the flattened pack |
| Chaining.InvokeReachesFold | include/continuable/detail/core/base.hpp:855-929 | invoking any chain with any nest of callbacks reaches the point where the nest is called with the fold of the chain's handlers, or nothing is called if that is empty |
| Chaining.CallbackReachesFold | include/continuable/detail/core/base.hpp:618-743 | one callback: results and errors are routed by its kind, directly or through its executor, and come out as the handler's meaning |
| Chaining.BodyReachesFold | include/continuable/detail/core/base.hpp:311-512 | each kind of return value, a returned continuable included, calls the next callback as its meaning says; void from a failure handler calls nothing |
| Chaining.ReadyShortcutAgrees | include/continuable/detail/core/base.hpp:85-105 | invoking a ready continuation with a callback ends where unpacking it and calling the callback directly begins |
| Chaining.InnerReachesFold | include/continuable/detail/core/base.hpp:883-971 | the ready shortcut of a chain and the invocation of its inner continuation lead to the same call |
| Chaining.ChainDeliversFold | include/continuable/detail/core/base.hpp:982-1033 | a chain of any length, with the final callback, delivers exactly the fold of its then, fail and next handlers, runs exactly the handlers the fold runs, in order, and never changes after that |
| Chaining.DeliveredAtMostOnce | include/continuable/detail/core/base.hpp:757-810 | at no step has the final callback been called twice |
| Chaining.LeafRuns | include/continuable/detail/core/base.hpp:1017-1033 | a continuation without handlers, executed with the final callback, is started once unless it is ready, and delivers what it resolves to |
| Chaining.HandlerIsCalled | include/continuable/detail/core/base.hpp:618-743 | one handler more, seen from the executions without and with it: it is called, after everything else, with what was delivered without it, exactly if it is a `then` and that is a result, a `fail` and that is an exception, or a `next` and something was delivered; if it is not called nothing changes, and a work item that is failed or dropped ends in that |
| Chaining.ReturnedValueIsDelivered | include/continuable/detail/core/base.hpp:311-512 | what the execution delivers after a handler returned, for each kind of return value |
| Chaining.ReturnedContinuableGoesOn | include/continuable/detail/core/base.hpp:311-332 | after a handler that returned a continuable the execution goes on as that of this continuable, with the argument captured |
| Chaining.ClosureKeepsItsCaptures | include/continuable/detail/core/base.hpp:311-332 | a continuable made elsewhere and returned here runs under the captures it was made with |
| Chaining.ImmediateHasSameOutcome | include/continuable/detail/core/base.hpp:518-601 | work that is run acts as if executed at once, work failed with e as exception e past its handler, dropped work as an empty result, anywhere in a chain |
| Chaining.ImmediateRunsTheSame | include/continuable/detail/core/base.hpp:518-601 | the chain it is compared with has no executor at all, and if every work item is run both run the same handlers in the same order |
| Chaining.DeferredEqualsImmediate | include/continuable/detail/core/base.hpp:519-601 | under every schedule of work items a chain that gets enough turns delivers what it delivers on the current thread |
| Sequential.WhenSeqGoesOneByOne | include/continuable/detail/connection/connection-seq.hpp:77-135 | for every mix of ready, in-place and later resolutions: with k the first continuable that does not resolve with values, exactly those up to k get their turns, start and resolution strictly alternating; whenever one is started exactly the ones before it in the pack have resolved; the callback gets all values in pack order, or the exception of k once, or nothing if k never resolves |
| Sequential.WhenSeqIsSequential | include/continuable/detail/connection/connection-seq.hpp:77-135 | the visitor on the resumable traversal causes the starts, resolutions and callback calls of the sequential specification, in the same order |
| Sequential.SequentiallyStops | include/continuable/detail/connection/connection-seq.hpp:95-134 | the specification in closed form: the turns up to the first continuable without values, and what is delivered |
| Sequential.AfterPlays | include/continuable/detail/connection/connection-seq.hpp:95-128 | after one box the connection goes on alike, whether it was ready, resolved in place or resolved later |
| Sequential.AfterStores | include/continuable/detail/connection/connection-seq.hpp:95-119 | exactly the box of the continuable that resolved is assigned, before the traversal goes on, and only asynchronous ones are invoked |
| Sequential.PlaysOut | include/continuable/detail/connection/connection-seq.hpp:130-134 | at completion no box is missing and the callback gets the values of all of them in order |
| Sequential.ConnectSequentially | include/continuable/detail/connection/connection-seq.hpp:155-170 | starting the connection on the traversal frame settles what will be observed as the sequential specification of the flattened pack |
| Sequential.ResumeWithValues | include/continuable/detail/connection/connection-seq.hpp:111-121 | resuming the frame after a resolution with values preserves what will be observed |
| Sequential.ConnectMeaning | include/continuable/detail/connection/connection-seq.hpp:54-69 | the right continuable is started only after the left one had values; then the values are concatenated, otherwise the left outcome stays |
| Sequential.ShiftIsSequential | include/continuable/detail/connection/connection-seq.hpp:54-69 | a fold of >> over any list starts, gathers and fails as the sequential specification |
| Sequential.WhenSeqEqualsShift | include/continuable/detail/connection/connection-seq.hpp:147-170 | when_seq over a list and the fold of >> over it have the same starts in the same order and the same calls of the callback |
| AllConnection.AssertionsHold | include/continuable/detail/connection/connection-all.hpp:65-84 | the counter is positive at every decrement; at every invocation it is zero, accept has run and no box is missing |
| AllConnection.StepPreservesInv | include/continuable/detail/connection/connection-all.hpp:76-128 | every atomic step keeps: the counter is the unreleased guard plus the registered callbacks that did not give their count back, failed ones included; at most one party is about to invoke |
| AllConnection.RunKeepsInv | include/continuable/detail/connection/connection-all.hpp:86-108 | in every interleaving each box holds what its own callback assigned, and a delivered exception is the first that arrived |
| AllConnection.AllDelivers | include/continuable/detail/connection/connection-all.hpp:66-128 | in every interleaving the callback runs at most once: with the first error if there is one, otherwise, only when all callbacks have stored a result and accept has run, with the stored results, all values of each continuable, in the order of the continuables; once all callbacks are resolved and accept returned it has run |
| AllConnection.StoredIff | include/continuable/detail/connection/connection-all.hpp:86-99 | what a callback stored in its box is exactly what it was called with |
| AllConnection.ErrorsInOrder | include/continuable/detail/connection/connection-all.hpp:101-107 | the first error of a run is the first exception that any callback was called with, and there is none exactly if no callback was called with one |
| AllConnection.CallbacksComeAnyTime | include/continuable/detail/connection/connection-all.hpp:86-108 | no interleaving is left out: a registered callback that was not called yet may be called with any result or exception at any moment, also after accept and after a failure |
| AllConnection.ResultSubmitter.constructor | include/continuable/detail/connection/connection-all.hpp:111-113 | a new submitter is in the initial state of the protocol, with the guard counted |
| AllConnection.ResultSubmitter.CreateCallback | include/continuable/detail/connection/connection-all.hpp:115-121 | registering a callback is the protocol step that counts it |
| AllConnection.ResultSubmitter.InvokeCallback | include/continuable/detail/connection/connection-all.hpp:65-74 | the final callback gets all boxes, once |
| AllConnection.ResultSubmitter.CompleteOne | include/continuable/detail/connection/connection-all.hpp:76-84 | giving a count back invokes the callback exactly if it was the last one |
| AllConnection.ResultSubmitter.PartialResult | include/continuable/detail/connection/connection-all.hpp:91-99 | a result is stored in its own box and then completed |
| AllConnection.ResultSubmitter.PartialError | include/continuable/detail/connection/connection-all.hpp:101-107 | an exception goes to the callback if that was not called yet, and its count is never given back |
| AllConnection.ResultSubmitter.Accept | include/continuable/detail/connection/connection-all.hpp:123-128 | accept gives the guard back |
| AllConnection.DispatchOne | include/continuable/detail/connection/connection-all.hpp:135-145 | one continuable is registered and started, and may resolve at once; this is a run of the protocol in which the guard keeps the counter from reaching zero |
| AllConnection.AcceptDelivers | include/continuable/detail/connection/connection-all.hpp:123-128 | accept calls the callback exactly if every continuable resolved with values by then |
| AllConnection.StartAll | include/continuable/detail/connection/connection-all.hpp:176-179 | starting all continuables, whatever resolves at once, never calls the callback with values before accept |
| AllConnection.Dispatch | include/continuable/detail/connection/connection-all.hpp:165-183 | the whole dispatch, with any continuables resolving in place, is a run of the protocol; it calls the callback with the first exception, or with all boxes if every continuable resolved with values, or not yet |
| AnyConnection.AnyResultSubmitter.Invoke | include/continuable/detail/connection/connection-any.hpp:80-87 | the first arrival is handed on, and whatever comes later changes nothing |
| AnyConnection.Dispatch | include/continuable/detail/connection/connection-any.hpp:176-190 | every continuable is started, in order, even after one has resolved; the callback got the outcome of the first one that resolved in place, and nothing if none did; this is what the network of connections in `Flattening` does with the same calls |
| AnyConnection.AnyIsUniform | include/continuable/detail/connection/connection-any.hpp:89-144 | a pack with a deduced signature holds continuables of that signature only, and each of them is started once, in order |
| AnyConnection.UniformIsDeduced | include/continuable/detail/connection/connection-any.hpp:106-143 | a pack of continuables of one signature, without empty parts, has that signature deduced |
| AnyConnection.DeducedIff | include/continuable/detail/connection/connection-any.hpp:89-144 | a signature is deduced exactly if all that a type is made of is continuables of that signature |
| Flattening.StepTracks | include/continuable/detail/connection/connection-all.hpp:54-133 | a running network of all and any connections is, after any history, in the state its meaning determines, and calls its callback exactly when the meaning of the history becomes defined |
| Flattening.ObservedIsMeaning | include/continuable/detail/connection/connection-any.hpp:52-87 | the callback is called at the event that completes the meaning (the first error or the last value of all, the first call of any) with that payload |
| Flattening.CalledAtMostOnce | include/continuable/detail/connection/connection-any.hpp:80-86 | the callback of a network is never called twice |
| Flattening.LeafFiresOnce | include/continuable/detail/connection/connection-all.hpp:86-108 | a leaf means the first event it is part of, with what it resolves to there |
| Flattening.AndMeans | include/continuable/detail/connection/connection-all.hpp:54-133 | the meaning of `x && y` by those of x and y: the first of both to fail fails it, otherwise it completes with the later of both, with the values of x before those of y |
| Flattening.OrMeans | include/continuable/detail/connection/connection-any.hpp:52-87 | the meaning of `x \|\| y`: that of the first of both to resolve, with whatever that is |
| Flattening.CallbackIsProtocolRun | include/continuable/detail/connection/connection-all.hpp:86-108 | the submitter of the network does in one piece what the interleaved protocol does step by step |
| Flattening.DispatchIsOneEvent | include/continuable/detail/connection/connection-all.hpp:165-183 | taking a whole dispatch as one event gives the callback exactly what the protocol with its guard gives it |
| Flattening.NormalizePreservesMeaning | include/continuable/detail/connection/connection.hpp:61-96 | the elements contributed by a concrete continuable, one of another strategy or one of the same strategy mean what the continuable means |
| Flattening.ConnectMeans | include/continuable/detail/connection/connection.hpp:98-118 | connecting two continuables means the binary connection of both |
| Flattening.CompiledAlternates | include/continuable/detail/connection/connection.hpp:61-118 | without a `finish` in between, no connection in the compiled expression is a direct part of one with the same operator |
| Flattening.FlatteningPreservesObservation | include/continuable/detail/connection/connection.hpp:53-146 | for every expression of && and \|\|, any leaves resolving during the dispatch and any order of the other leaf results and errors, the flat n-ary connection and the nested binary one call their callbacks at the same events with the same payloads |
| Interleaving.StepKeepsInv | include/continuable/detail/connection/connection-all.hpp:86-128 | every atomic step anywhere in a tree of connections keeps: filled boxes hold what their continuables delivered, a delivered exception came from one of them, and what was delivered stays |
| Interleaving.RunIsExplained | include/continuable/detail/connection/connection-all.hpp:54-133 | every run of a nested connection, dispatches and the callbacks of all its parts interleaved step by step, delivers what the connection means for some order of the leaves that have resolved; once nothing is on its way it is an order of all of them, also if nothing was delivered |
| Interleaving.SomeStepUntilSettled | include/continuable/detail/connection/connection-all.hpp:66-128 | as long as a call is on its way in a tree of connections, some atomic step is possible |
| Interleaving.LeafMayResolve | include/continuable/detail/connection/connection-all.hpp:54-133 | no interleaving is left out: any leaf of a tree of connections may resolve at any moment, which resolves just that one |
| Interleaving.InternalResolvesNothing | include/continuable/detail/connection/connection-all.hpp:54-133 | the steps of the connections themselves resolve no leaf |
| Interleaving.RunsAreBounded | include/continuable/detail/connection/connection-all.hpp:54-133 | no run, however it is interleaved, has more steps than a number given by the state it starts from |
| Interleaving.Settles | include/continuable/detail/connection/connection-all.hpp:54-133 | from any state of a run the steps of the connections alone lead to one in which no call is on its way |
| Interleaving.AnyLeavesMayResolve | include/continuable/detail/connection/connection-all.hpp:54-133 | for any leaves of a connection there is a run in which just these resolve and no call stays on its way, and it delivers what the connection means for an order of just these |
| Interleaving.FlatRunIsExplainedAsWritten | include/continuable/detail/connection/connection.hpp:53-146 | every run of the flat connection, step by step, delivers what the expression of && and \|\| as written means for some order of the leaves that have resolved |
| Remapping.RemapContainer | include/continuable/detail/traversal/traverse.hpp:468-522 | the loops over a container give the mapped container: several results kept as one tuple, an erased element type erases the container whatever its size |
| Remapping.TraversePack | include/continuable/detail/traversal/traverse.hpp:540-588 | the traversal calls the mapper on the leaves behind open gates, from left to right |
| Remapping.StrictIffOnlyConts | include/continuable/detail/traversal/traverse.hpp:283-301 | a type is accepted as a whole exactly if all it is made of is continuables |
| Remapping.VisitedIffReached | include/continuable/detail/traversal/traverse.hpp:561-588 | a continuable is visited if and only if each tuple on the way to it has an element made of continuables only, and each container an element type like that |
| Remapping.ElementIsVisited | include/continuable/detail/traversal/traverse.hpp:294-301 | a continuable that is an element of the pack is visited, whatever its other elements are |
| Remapping.ContainerElementIsVisited | include/continuable/detail/traversal/traverse.hpp:540-550 | and so is each one in a container of continuables that is an element of the pack |
| Remapping.MappingPreservesTypes | include/continuable/detail/traversal/traverse.hpp:561-573 | mapping a value of a type gives a value of the mapped type, for all shapes and all sizes of containers |
| Remapping.HintIsExact | include/continuable/detail/connection/connection-aggregated.hpp:211-244 | the signature computed from the type of the boxed pack is the list of types of the values delivered later, the collapse to no arguments included |
| Remapping.GatesAgree | include/continuable/detail/traversal/traverse.hpp:283-301 | a boxed type passes the gate of the second mapping exactly where the original type passed that of the first |
| Remapping.BoxesAreDispatched | include/continuable/detail/connection/connection-aggregated.hpp:173-209 | there is one box for each continuable packing visited, in order, and the second pass visits each of them once |
| Remapping.ResumableTraversalVisitsBoxes | include/continuable/detail/traversal/traverse-async.hpp:353-400 | the resumable traversal, which has no gate, visits the same boxes |
| Remapping.AllBoxedIffOpen | include/continuable/detail/traversal/traverse.hpp:676-743 | all continuables of a type are boxed if and only if, where they occur, some tuple element is accepted as a whole and the container element is |
| Remapping.NestedContinuableIsMissed | include/continuable/detail/traversal/traverse.hpp:561-573 | a tuple of a value and a continuable, alone inside when_all, is delivered with the continuable still in it |
| Remapping.OpenGatesVisitAll | include/continuable/detail/traversal/traverse.hpp:758-793 | with open gates every continuable of a value is visited once, in order |
| Unboxing.UnboxedIsSettled | include/continuable/detail/connection/connection-aggregated.hpp:78-166 | for any pack, boxing, filling and unboxing does what one mapping without boxes does: plain values kept, single results in place, several spread into a tuple or kept together in a container, what resolves to nothing erased upward, and what lies behind a closed gate passed on as it is |
| Unboxing.ResolvedIffOpen | include/continuable/detail/traversal/traverse.hpp:676-743 | a pack settles to the structural result, with every continuable replaced, if and only if the gates are open wherever continuables occur |
| Unboxing.ConnectionDeliversSettledPack | include/continuable/detail/connection/connection-aggregated.hpp:194-239 | for any pack: each visited continuable is boxed once, every box dispatched and unboxed exactly once by either traversal and in the same order, and the callback gets what the pack settles to |
| Unboxing.ResultsAreSpread | include/continuable/detail/connection/connection-aggregated.hpp:78-166 | of a pack of continuables and plain values the callback gets all results of each continuable, one after another, between the plain values |
| Unboxing.TupleStaysTuple | include/continuable/detail/traversal/traverse.hpp:561-573 | a tuple in the pack is delivered as one tuple into which the results are spread, or disappears if nothing is left of it |
| Unboxing.ContainerStaysContainer | include/continuable/detail/traversal/traverse.hpp:468-522 | a container of continuables is delivered as one container of their results, single ones as they are and several together as a tuple; without results it disappears whatever its size |
| Unboxing.EveryResultInItsPlace | include/continuable/detail/connection/connection-aggregated.hpp:78-166 | for any pack without duplicates: read from left to right, the arguments of the callback are the pack with all results of each visited continuable, and of no other, in the place of that continuable |
| Unboxing.LeftIffNotVisited | include/continuable/detail/traversal/traverse.hpp:561-588 | a continuable is handed to the callback itself, instead of its results, exactly if it was not visited |
| WhenAll.WhenAllDelivers | include/continuable/detail/connection/connection-all.hpp:86-133 | for every pack and every interleaving of its callbacks: the first exception fails the connection; otherwise the callback gets the pack in which, from left to right, each visited continuable is replaced by all values its own callback was called with and everything else is as it was; it is called once when everything is resolved |
| WhenSeq.WhenSeqDelivers | include/continuable/detail/connection/connection-seq.hpp:77-135 | for every pack and every mix of ready and asynchronous continuables: if all resolve with values the callback gets the pack in which, from left to right, each visited continuable is replaced by all values it resolved to itself and everything else is as it was; otherwise the exception of the first that does not |
| Ownership.StepConserves | include/continuable/continuable-base.hpp:786-799 | no move, then, fail, connection, freeze, done, conversion or destruction duplicates or loses a continuation, those that take a second continuable included |
| Ownership.OwnershipIsLinear | include/continuable/continuable-base.hpp:169-175 | over every program a continuation has at most one owner and is handed to an invocation at most once; at the end of scope it was, exactly once, if an owner was done or destroyed unfrozen, and otherwise it was given up by a frozen destruction or an overwriting assignment |
| Ownership.StartedAtMostOnce | include/continuable/detail/connection/connection-seq.hpp:54-69 | however the parts resolve: over every program a continuation is started at most once, and if and only if it was handed to an invocation in which everything sequenced before it by >>, when_seq or then resolved with values and everything it is a fallback for by fail failed |
| Ownership.ConnectionIsFrozenIffSomeOperandWas | include/continuable/detail/connection/connection.hpp:101-117 | the result of && or \|\| is frozen if and only if some operand was |
| Ownership.SequenceIsFrozenIffLastOperandWas | include/continuable/detail/connection/connection-seq.hpp:54-59 | the result of >> is frozen if and only if its last operand was |
| Ownership.PackIsFrozenIffSomeContinuableWas | include/continuable/detail/connection/connection.hpp:148-192 | a connection of a pack is frozen if and only if some visited continuable was |
| Ownership.FrozenUnlessThawed | include/continuable/continuable-base.hpp:689-714 | the exact effect of one operation on a continuation whose owners are frozen: it stays frozen and is not invoked if and only if the operation is not done, freeze(false) or a conversion of an owner, nor >> of an owner with an unfrozen right operand, nor then or fail of an unfrozen continuable with an owner as the argument |
| Ownership.DormantUnlessThawed | include/continuable/continuable-base.hpp:689-714 | over any further program of these operations, whatever it does with other continuables, a frozen continuation has only frozen owners and is not invoked, exactly until one of them thaws it |
| Lifetimes.PassedOnAsItIs | include/continuable/continuable-base.hpp:91-175 | in any state: the result of a move, of adding a handler or of an assignment does at its end what the original would have done, and the original then does nothing |
| Lifetimes.FreezeDecides | include/continuable/continuable-base.hpp:689-714 | in any state: a new continuable is invoked at its end, any one as the bit set by `freeze` says, and a `done` one once, whatever that says |
| Lifetimes.ConnectionStartsBoth | include/continuable/detail/connection/connection.hpp:98-118 | in any state: unless an operand was frozen, the destructor of `l && r` or `l \|\| r` invokes it, and that starts all that l and r start, however they end |
| Lifetimes.SequenceStartsInOrder | include/continuable/detail/connection/connection-seq.hpp:54-69 | in any state: unless r was frozen, the destructor of `l >> r` invokes it, and that starts all that l starts, and all that r starts exactly if l ends with values |
| Lifetimes.PackStarts | include/continuable/detail/connection/connection.hpp:148-192 | in any state: unless an operand was frozen, the destructor of a connection of a pack invokes it; when_all and when_any start all operands, when_seq those up to and including the first that does not end with values |
| Lifetimes.AssignmentForgetsItsTarget | include/continuable/continuable-base.hpp:152-156 | in any state: once another continuable was assigned to the owner of a continuation, frozen or not, no later program invokes it |
| Lifetimes.ConversionThaws | include/continuable/continuable-base.hpp:130-149 | in any state: a continuable that was converted, frozen or not, is invoked by the destructor of the new one |
| Lifetimes.ArgumentThaws | include/continuable/continuable-base.hpp:302-306 | in any state: a continuable given to then or fail of an unfrozen one, frozen or not, is invoked by the destructor of the result, and started when the left one has values, or fails |
| Lifetimes.MissedContinuableIsInvoked | include/continuable/detail/connection/connection.hpp:178-192 | in any state: a continuable that the mapping of a pack does not reach is never frozen; it is started by its own destructor even if the connection is frozen and never invoked |
| Continuables.ContinuableBase.Then | include/continuable/detail/core/base.hpp:1005-1016 | the new continuable has the data and a copy of the flags, taken before the source was released |
| Continuables.ContinuableBase.Follow | include/continuable/continuable-base.hpp:389-397 | then and fail with a continuable: that one is held frozen by the handler, and the flags of the result are those of the left one alone |
| Continuables.ContinuableBase.Connect | include/continuable/detail/connection/connection.hpp:98-118 | both operands are frozen and consumed, the new continuable holds both data and the flags merged before that |
| Continuables.ContinuableBase.Sequence | include/continuable/detail/connection/connection-seq.hpp:54-69 | the left operand takes over the frozen bit of the right one, which is moved into its handler frozen; the result holds both in order |
| Continuables.ContinuableBase.Destruct | include/continuable/continuable-base.hpp:169-175 | the destructor invokes the data exactly if it is owned and not frozen, and its own assertion holds |
| Continuables.Scope.PrepareAll | include/continuable/detail/connection/connection.hpp:148-176 | preparing the operands of a pack one after another consumes all of them, keeps their data in order and makes the ownership frozen as the specification of packs says |
| Continuables.Scope.Execute | include/continuable/continuable-base.hpp:91-175 | any operation on objects that share nothing, each with an ownership object of its own, does to all of them exactly what the program step says |
| Continuables.Scope.ExecuteAll | include/continuable/continuable-base.hpp:91-175 | executing a whole program on the heap ends in the state of its run, so everything proved of runs holds for the objects |
| Coroutine.StepPreservesInv | include/continuable/detail/other/coroutines.hpp:99-151 | every step of either side keeps the hand-off invariant: a parked coroutine always has its resumption still ahead |
| Coroutine.HandOffIsSafe | include/continuable/detail/other/coroutines.hpp:130-151 | the callback finds no result yet; it resumes only a suspended coroutine, never from the coroutine's own stack; the coroutine goes on only after the result is written |
| Coroutine.AwaitsAreDirect | include/continuable/detail/other/coroutines.hpp:114-173 | in every interleaving and for any number of awaits: each await yields what direct execution yields, exactly those of ready continuables have no suspension point, resumptions never nest, and the promise of the coroutine is resolved at most once |
| Coroutine.EachAwaitYieldsItsOutcome | include/continuable/detail/other/coroutines.hpp:111-173 | in every interleaving, await by await: each is the one the program makes after the outcomes before it, and yields what its own continuable resolves to, at once exactly if that is ready; the promise of a finished coroutine was resolved with what the program returned |
| Coroutine.AwaitsAreBounded | include/continuable/detail/other/coroutines.hpp:130-151 | every step of an await, by either side, leaves fewer ahead: an execution with n finished awaits has at most 8 n + 8 steps |
| Coroutine.NeverStuck | include/continuable/detail/other/coroutines.hpp:130-151 | no resumption is lost: some step is possible until the coroutine finished, unless it waits for a continuable that never resolves |
| Coroutine.SchedulesAgree | include/continuable/detail/other/coroutines.hpp:111-151 | two executions that finish, of programs that differ only in which continuables are ready, saw the same and resolve their promise alike, whether these were ready, in place or late |
| Coroutine.ReadinessIsInvisible | include/continuable/detail/other/coroutines.hpp:111-151 | for any program: making other continuables of it ready, or not, changes neither what it sees nor how it resolves |
| Coroutine.CallbackMayComeAnyTime | include/continuable/detail/other/coroutines.hpp:130-151 | no interleaving is left out: from the invocation on the callback may be called by another thread wherever the coroutine is, and by the continuable itself until its invocation returns |
| Coroutine.InPlaceComesFirst | include/continuable/detail/other/coroutines.hpp:130-151 | a callback called on the stack of the coroutine has published its result before the coroutine can make another step |
| Coroutine.Awaitable.constructor | include/continuable/detail/other/coroutines.hpp:111-120 | constructing it is the step of the hand-off that begins an await; only a ready continuable is queried, which consumes it |
| Coroutine.Awaitable.Callback | include/continuable/detail/other/coroutines.hpp:133-146 | a call of the callback is the steps of the hand-off that store, publish and, exactly if the coroutine is parked, resume it |
| Coroutine.Awaitable.AwaitSuspend | include/continuable/detail/other/coroutines.hpp:130-151 | suspending is the steps of the hand-off from the invocation to the exchange: the coroutine is parked exactly if the callback was not called meanwhile, and otherwise goes on with its result |
| Coroutine.CoAwait | include/continuable/detail/other/coroutines.hpp:111-128 | a whole co_await: it suspends exactly if the continuable is neither ready nor resolved in place, and otherwise goes on with the outcome |
| Waiting.RunKeepsInv | include/continuable/detail/transforms/wait.hpp:89-112 | in every interleaving one object at most has the ownership, so the unlock begins once, with the payload of the object that had it |
| Waiting.UnlockIsSafe | include/continuable/detail/transforms/wait.hpp:98-112 | the unlocker touches the waiter's frame only while it exists and finds the flag unset |
| Waiting.WaitReturnsTheResult | include/continuable/detail/transforms/wait.hpp:121-153 | the waiter returns only after store, notification and unlock, with the stored result, Empty if the callback was destroyed unresolved; a sleeping waiter is always notified |
| Waiting.ReturnedWasGiven | include/continuable/detail/transforms/wait.hpp:121-153 | what the waiter returns is what the callback was called with in that run, or Empty if it was never called |
| Waiting.AnythingMayHappen | include/continuable/detail/transforms/wait.hpp:76-112 | no interleaving is left out: at any moment any unlocker may be moved, assigned to, called or destroyed |
| Waiting.WaiterMayWakeUp | include/continuable/detail/transforms/wait.hpp:145-152 | the condition variable may wake the waiter by itself, which then holds the mutex and looks at the flag again |
| Waiting.WaiterIsReleased | include/continuable/detail/transforms/wait.hpp:145-152 | once the callback was called or destroyed some side can move until the waiter returned, and each move leaves fewer steps ahead |
| Waiting.LeftBehindIffForgotten | include/continuable/detail/transforms/wait.hpp:84-91 | as long as the callback was neither called nor destroyed, some unlocker has the right to unlock unless it was assigned to, exactly |
| Waiting.ForgottenWaitsForever | include/continuable/detail/transforms/wait.hpp:84-91 | after such an assignment the waiter never returns, in any interleaving |
| Waiting.UnsafeUnlocker.Moved | include/continuable/detail/transforms/wait.hpp:84-87 | moving an unlocker is the step of the protocol that moves the right to unlock to a new object |
| Waiting.UnsafeUnlocker.MoveFrom | include/continuable/detail/transforms/wait.hpp:84-87 | move assignment is the step of the protocol that overwrites the right of the target without unlocking; assigning an unlocker to itself changes nothing |
| Waiting.UnsafeUnlocker.Unlock | include/continuable/detail/transforms/wait.hpp:98-112 | unlocking is the steps of the protocol from lock to unlock with this result if the object has the right, which it loses, and nothing otherwise; the assertion on the flag holds |
| Waiting.UnsafeUnlocker.Destruct | include/continuable/detail/transforms/wait.hpp:89-91 | destroying the object with the right unlocks with Empty, destroying any other does nothing |
| TimedWaiting.PlayIsConsistent | include/continuable/detail/transforms/wait.hpp:207-223 | in every interleaving the shared frame is held by who uses it, and the result is in it exactly between its storing and its taking |
| TimedWaiting.TimedWaitReturnsEmptyOrTheResult | include/continuable/detail/transforms/wait.hpp:229-259 | wherever the limit is reached, the waiter returns Empty or what the callback was called with, the latter if it saw the flag; the unlocker uses only a frame it holds and finds the flag unset |
| TimedWaiting.WithoutLimitTheResultIsReturned | include/continuable/detail/transforms/wait.hpp:229-259 | in every run in which the limit is not reached, the waiter returns what the callback was called with |
| TimedWaiting.ResultWasGiven | include/continuable/detail/transforms/wait.hpp:207-223 | in any run, what the waiter returns is Empty or was given to the callback in a step of that run |
| TimedWaiting.TimedWaiterIsReleased | include/continuable/detail/transforms/wait.hpp:207-259 | no deadlock: one of the sides can always make a step until both are through, unless the waiter waits for a callback that was neither called nor destroyed, which the limit ends; each step leaves fewer of them |
| TimedWaiting.TakesWhatIsStored | include/continuable/detail/transforms/wait.hpp:229-259 | the result is read and written only with its mutex held; the waiter takes what was stored by then, also if it gave up, and Empty only if nothing was |
| TimedWaiting.AnythingMayHappenInTime | include/continuable/detail/transforms/wait.hpp:207-259 | no interleaving is left out: at any moment any unlocker may be moved, called or destroyed, and the limit may be reached as long as the waiter waits |
| Looping.LoopFrame.Loop | include/continuable/detail/operations/loop.hpp:86-109 | the body is invoked once more; if it throws the promise fails |
| Looping.LoopFrame.Resolve | include/continuable/detail/operations/loop.hpp:111-122 | an empty result loops, any other resolves the promise with it |
| Looping.LoopFrame.ResolveError | include/continuable/detail/operations/loop.hpp:124-126 | a failed body fails the promise, which was not resolved before |
| Looping.LoopRunsOnceMore | include/continuable/detail/operations/loop.hpp:86-126 | after k empty results the body runs exactly k + 1 times and the promise is resolved once with what the last one gave, not earlier and nothing later |
| Looping.RangeLooper.Invoke | include/continuable/detail/operations/loop.hpp:160-175 | an invocation calls the body for the current value, and only if that completes moves on and compares |
| Looping.RangeLoopVisitsRange | include/continuable/detail/operations/loop.hpp:160-175 | over begin < end the body is called for begin, ..., end - 1 or up to the first value it fails for, and the promise is resolved accordingly |
| Looping.RangeLoopVisitsRangeIff | include/continuable/detail/operations/loop.hpp:165-172 | with a body that completes, the loop calls it for precisely the values of the range and resolves if and only if begin < end; without bounds it resolves only then |
| Looping.RangeLoopCalls | include/continuable/detail/operations/loop.hpp:160-175 | for any begin and end, how many calls are made at any time and when the loop resolves: over an empty or reversed range it never does without bounds, and with unsigned numbers after these have wrapped around |
| Splitting.Call | include/continuable/detail/operations/split.hpp:70-85 | resolving goes through the stored promises and then the first one, skipping invalid ones |
| Splitting.OperatorBool | include/continuable/detail/operations/split.hpp:100-112 | the loop tells whether the promise is valid |
| Splitting.ValidIffSomeLeafIs | include/continuable/detail/operations/split.hpp:100-112 | a tree of split promises is valid if and only if some single promise in it is |
| Splitting.EveryValidLeafIsResolvedOnce | include/continuable/detail/operations/split.hpp:70-98 | for any tree built by splitting, each valid single promise is resolved exactly once per occurrence, with the given arguments, and no invalid one is |
| Splitting.StoredComeBeforeTheFirst | include/continuable/detail/operations/split.hpp:70-85 | in the log of resolutions, the promises a split promise stores come before its first one |
| Splitting.StoredInOrder | include/continuable/detail/operations/split.hpp:70-85 | and among each other in the order in which they are stored |

## Left out

- Adapters for asio, promisify, futures and gtest, and type erasure through function2: erased and plain callables are treated alike.
- Overload resolution, forwarding and partial invocation: handlers take the arguments they are given; only what the overloads decide is kept.
- Memory orders and real threads: atomic operations are sequentially consistent steps.
- The clock of `wait_for` and `wait_until`: reaching the limit is possible at any moment, and nothing is said about when the waiter returns.
- `std::array` in the synchronous traversal: packs consist of tuples and containers with `push_back`; groups of promises inside a split promise contain no empty tuples.
- Order of the calls of a mapper inside a mapped tuple: C++ leaves it open, so order is stated for traversals only.
- Exceptions from move constructors or inside `noexcept` continuations, and the trap of the final callback for unhandled exceptions: they end the program.
- Types of the arguments along a chain: chains pass on opaque values; signatures are modelled for connections.
- Flattening.FlatteningPreservesObservation: a dispatch, with everything that resolves while it is being started, is one event, and so is a call of a leaf; `Interleaving` takes them apart, and explains each run on its own rather than comparing two.
- Interleaving.RunIsExplained: a leaf may resolve at any time, also before its connection has started it, so the runs of the library are among those considered; the order that explains a run need not be the one in which the leaves resolved.
- Sequential.WhenSeqGoesOneByOne: a ready continuable holds values, as the visitor takes for granted when it unpacks one.
- Coroutine.AwaitsAreDirect: a ready continuable that holds nothing counts as one that never resolves; the library asserts against awaiting it.
- Coroutine.Awaitable.AwaitSuspend: as one method it has at most a callback on its own stack in between; all other interleavings are those of the transition system.
- Waiting.UnsafeUnlocker.Unlock: as one method it finds the mutex free and is not interrupted; all interleavings with the waiter are those of the transition system.
- Iterators and signed numbers in `range_loop`: going past their end is undefined in C++, so the loop is modelled for numbers without bounds and for unsigned ones.
- A continuable captured by a handler and returned from it: it is moved, and consumed at once when the handler returns it.
- Continuables.Scope.Execute: a continuable inside a tuple or container is an object of its own, and what a connection does when invoked is left to the modules about connections.
