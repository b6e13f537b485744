# A verified model of the SkStateMachine engine and the InputProcessor combo check

This project models the core of a small Unity utility library in Dafny:

- The generic finite-state-machine engine, in two variants:
  - `SkStateMachine<T>` with `SkStateNode<T>`, driven as a coroutine;
  - `SkStateMachineAsync<T>` with `SkStateNodeAsync<T>`, task-based, with a cancellation token.
- The combo-window check `InputProcessor<T>.SimulateCombos` and `ResetTriggerTime`.

## How the machine is modelled

A machine keeps:

- an insertion-ordered list of `(state, node)` entries;
- three state fields `prev`, `cur` and `next`, all starting at the enum's default value;
- a shutdown flag.

`StartStateMachine` sets `next` and then loops until the flag is set. Each pass does one of two things:

- when `cur != next`: Exit on the current node, move `cur` to `next`, then Enter on the new node;
- otherwise: Update on the current node.

After the loop, one final Exit runs on the current node. Lookup is `List.Find`: the first entry for a state wins.

**Two layers.** The model has a pure layer and an imperative layer.

- The pure layer is the module `Lifecycle`. It describes a machine as a value `Config` and defines one function per operation: `Register`, `Unregister`, `Pass`, `Run` and so on.
- Each variant's classes keep their fields in place and update them in loops.
- Every method is proved to change the fields exactly as the matching pure function says. The link is the ghost function `Abs()`.
- Properties of the pure functions are proved as lemmas:
  - in `Registry`, for registration;
  - in `Protocol`, for the loop;
  - in `StateMachineAsync`, for cancellation.

**Callbacks.** A callback is an oracle.

- Calling hook `p` on node `n` yields a `Reaction`: at most one request before the callback's first suspension point (`firstStep`), and at most one after it (`remainder`).
- A request is none, `MoveState(s)` or `Shutdown()`.
- Enter, Update and Exit are run to the end, so both requests take effect.
  - In the coroutine variant, the driver runs the enumerator out.
  - In the task variant, the loop awaits the hook.
- Initialize and Finalize apply only the first step.
  - In the coroutine variant, the callback is advanced by one `MoveNext`.
  - In the task variant, the hook is not awaited.

**Trace.** Every hook call is recorded in a ghost trace as `Call(node, phase)`. A call is recorded whether or not a callback is set; with no callback, the hook asks nothing of the machine.

**Failed lookups.** A lookup that finds no node dereferences null in the source. Here it ends the run with the outcome `Faulted(state)`.

**Fuel.** The number of passes a scheduler drives is a `fuel` parameter. A run still looping when the fuel runs out is `Suspended`.

**Duplicate registration.** The model follows the code, which differs between the two variants:

- The coroutine variant appends a second entry and calls no hook.
- The task variant finalizes and removes the old node, then appends the new one without calling Initialize.

So the two variants handle a duplicate differently, and neither calls Initialize on the second node.

**Cancellation.** The task variant checks its token at the top of every iteration. The token is set from outside the machine, so `AsyncRun` takes the iteration at which it is first seen set (`cancelIn`) as a parameter.

**InputProcessor.** Times are `float` in the source. They are only subtracted and compared, so they are modelled as exact reals. `Simulate` is the reference function. `SimulateCombos` keeps the source's nested loops with their `break` and is proved equal to it.

The sample MonoBehaviours are modelled as scenarios whose callbacks are encoded as oracles; the `Samples` module shows the exact hook sequence each one produces.

## Model

| member | source | states |
|---|---|---|
| Lifecycle.Ordinal | StateMachine/Core/SkStateNode.cs:33-40 | the phase enum has exactly the five values Initialize, Enter, Update, Exit, Finalize, and each value's ordinal is its position in that order |
| Lifecycle.FirstMatch | StateMachine/Core/SkStateMachine.cs:100-103 | List.Find: no index exactly when no entry is bound to the state; otherwise an entry bound to the state with no earlier entry bound to it |
| Lifecycle.Invoke | StateMachine/Core/SkStateNode.cs:76-136 | a hook call appends exactly one Call to the trace, never touches the list, `prev` or `cur`, never clears the flag, and with a quiet callback changes nothing else |
| Lifecycle.OneStepPhases | StateMachine/Core/SkStateNode.cs:76-136 | for Initialize and Finalize only the callback's first step matters: callbacks that agree on it have the same effect |
| Lifecycle.Lookup | StateMachine/Core/SkStateMachine.cs:100-103 | GetStateNode on the list: the node of the first entry bound to the state, or None where the source gets null (its meaning is stated by `FirstMatch` and by both classes' `GetStateNode`) |
| Lifecycle.Perform | StateMachine/Core/SkStateMachine.cs:109-112 | what a callback's request does: MoveState sets `next` and nothing else, Shutdown (lines 189-192) sets the flag, which stays set, and no request changes nothing; the list, `prev`, `cur` and the trace are always kept |
| Lifecycle.Register | StateMachine/Core/SkStateMachine.cs:119-135 | RegisterStateNode under a duplicate policy. An unbound state gets one appended entry and one Initialize call. A bound state gets a second entry and no hook call in the coroutine variant; in the task variant (SKStateMachineAsync.cs:125-142) it gets Finalize on the old node, removal of its entry, and the new entry appended. Stated by `Registry.RegisterUnbound`, `AppendDuplicateKeepsFirst` and `ReplaceDuplicate` |
| Lifecycle.Unregister | StateMachine/Core/SkStateMachine.cs:141-153 | UnRegisterStateNode: Finalize on the first node bound to the state, then removal of exactly that entry; no change when the state is unbound (stated by `Registry.UnregisterRemovesFirst` and `UnregisterUnique`) |
| Lifecycle.RegisterAll | StateMachine/Core/SkStateMachine.cs:79-82 | the constructor's foreach: RegisterStateNode of each (value, fresh node) pair in enum order (stated by `Registry.RegisterAllSnoc` and `RegisterAllDistinct`) |
| Lifecycle.UnregisterAll | StateMachine/Core/SkStateMachine.cs:85-93 | the finalizer's foreach: UnRegisterStateNode of each enum value in order (stated by `Registry.UnregisterAllFinalizes`, `UnregisterAllFinalizesEach` and `TeardownEmpties`) |
| Lifecycle.Pass | StateMachine/Core/SkStateMachine.cs:165-180 | one loop body: with a transition pending, Exit on the current node, `prev := cur`, `cur := next`, Enter on the new node; otherwise Update on the current node; a failed lookup stops the pass with a fault (stated by `Protocol.TransitionPass`, `UpdatePass`, `PassFaults` and `PassShape`) |
| Lifecycle.Drain | StateMachine/Core/SkStateMachine.cs:183 | the Exit on the current node after the loop, or a fault when the current state has no node (stated by `Protocol.ShutdownDrains`) |
| Lifecycle.Run | StateMachine/Core/SkStateMachine.cs:163-184 | the `while (!m_isShuttingDown)` loop followed by the final Exit: passes until the flag is seen, a fault ends the run, and at most `fuel` passes are driven (stated by `Protocol.RunProtocol` and `StopEndsLoop`) |
| Lifecycle.Start | StateMachine/Core/SkStateMachine.cs:159-184 | StartStateMachine: sets `next` to the requested state, then runs the loop (stated by `Protocol.RestartAfterShutdown` and `StartWithoutCurrentNode`) |
| Registry.FirstMatchAppend | StateMachine/Core/SkStateMachine.cs:100-103 | appending an entry never changes which entry List.Find returns for a state already bound |
| Registry.FirstMatchAppendUnbound | StateMachine/Core/SkStateMachine.cs:121-126 | appending an entry for an unbound state makes it the entry found for that state |
| Registry.RemoveAtKeeps | StateMachine/Core/SkStateMachine.cs:150 | List.Remove keeps only entries that were there, keeps a duplicate-free list duplicate-free, and binds no new state |
| Registry.RemoveAtLookup | StateMachine/Core/SkStateMachine.cs:150 | List.Remove of an entry for another state does not change which node List.Find returns for a state |
| Registry.RegisterUnbound | StateMachine/Core/SkStateMachine.cs:119-128 | registering an unbound state appends exactly the one entry, calls Initialize once on the new node, and the state then looks up to that node |
| Registry.AppendDuplicateKeepsFirst | StateMachine/Core/SkStateMachine.cs:129-134 | the coroutine variant's duplicate registration only appends a second entry, calls no hook, and every state still looks up to the node it found before |
| Registry.UnregisterRemovesFirst | StateMachine/Core/SkStateMachine.cs:141-153 | unregistering a bound state finalizes the first matching node and removes exactly that entry; unregistering an unbound state changes nothing |
| Registry.UnregisterUnique | StateMachine/Core/SKStateMachineAsync.cs:148-160 | on a duplicate-free list, unregistering leaves the state unbound, the list duplicate-free and every other state's lookup unchanged |
| Registry.ReplaceDuplicate | StateMachine/Core/SKStateMachineAsync.cs:135-141 | the task variant's duplicate registration finalizes the old node, removes its entry and appends the new one without Initialize; exactly one entry remains for the state, bound to the new node, and other states are unaffected |
| Registry.ReplacePolicyKeepsUnique | StateMachine/Core/SKStateMachineAsync.cs:125-142 | registration in the task variant keeps the list duplicate-free |
| Registry.RegisterAllSnoc | StateMachine/Core/SkStateMachine.cs:79-82 | auto-registration of one more value is one more RegisterStateNode call |
| Registry.RegisterAllDistinct | StateMachine/Core/SKStateMachineAsync.cs:83-87 | auto-registration of distinct enum values yields exactly one entry per value in domain order and Initialize calls on the nodes in that order, each once; under either duplicate policy |
| Registry.RegisterKeepsStates | StateMachine/Core/SkStateMachine.cs:119-135 | registering never changes `prev` or `cur`, and changes neither `next` nor the flag when Initialize and Finalize callbacks make no request before their first suspension |
| Registry.RegisterAllKeepsStates | StateMachine/Core/SkStateMachine.cs:78-82 | the same for a whole auto-registration |
| Registry.LookupDistinctEntries | StateMachine/Core/SkStateMachine.cs:100-103 | in a list with one entry per distinct state, each state looks up to its own node |
| Registry.UnregisterStep | StateMachine/Core/SKStateMachineAsync.cs:148-160 | one unregistration on a duplicate-free list removes at most one entry and records one Finalize call per entry removed |
| Registry.UnregisterAllFinalizes | StateMachine/Core/SKStateMachineAsync.cs:90-98 | on a duplicate-free list, the finalizer's loop leaves every listed state unbound, removes only existing entries, and adds only Finalize calls, exactly one per entry removed |
| Registry.UnregisterFinalizesRemoved | StateMachine/Core/SkStateMachine.cs:141-153 | an entry that one unregistration removes is the one whose node that unregistration finalizes |
| Registry.UnregisterAllFinalizesEach | StateMachine/Core/SkStateMachine.cs:85-93 | every entry that the finalizer's loop removes has Finalize called on its node during the loop |
| Registry.TeardownEmpties | StateMachine/Core/SKStateMachineAsync.cs:90-98 | on a duplicate-free list, when the domain covers every registered state, the finalizer's loop empties the list and makes exactly one Finalize call per registered entry, with a Finalize call on the node of every entry |
| Protocol.TransitionPass | StateMachine/Core/SkStateMachine.cs:165-174 | a pass with `cur != next` records Exit on the old node and then Enter on the new one, sets `prev` to the old `cur` and `cur` to `next` as Exit left it (the old `next` unless Exit moved it) |
| Protocol.UpdatePass | StateMachine/Core/SkStateMachine.cs:175-179 | a pass with `cur == next` records exactly one Update on the current node and leaves `prev` and `cur` alone |
| Protocol.PassFaults | StateMachine/Core/SkStateMachine.cs:165-179 | a lookup that finds no node ends the pass with a fault on that state: before any hook for the current state, after Exit and the field moves for the new state |
| Protocol.PassShape | StateMachine/Core/SkStateMachine.cs:163-181 | any pass keeps the list and the earlier trace, adds at most two calls, only Enter, Update and Exit, with every Enter straight after an Exit, and never clears the flag |
| Protocol.ShutdownDrains | StateMachine/Core/SkStateMachine.cs:163-184 | once the flag is set the loop runs no pass: exactly one Exit on the current node, then completion, with `prev`, `cur` and the list unchanged; the final Exit's callback may still move `next`, and `next` is unchanged when it does not call MoveState |
| Protocol.StopEndsLoop | StateMachine/Core/SkStateMachine.cs:163-192 | a hook that calls Shutdown ends the loop at the next top-of-loop check, followed only by the final Exit, whatever the remaining fuel |
| Protocol.RestartAfterShutdown | StateMachine/Core/SkStateMachine.cs:159-192 | the flag is never cleared, so starting again after shutdown records only the final Exit |
| Protocol.StartWithoutCurrentNode | StateMachine/Core/SkStateMachine.cs:162-168 | the first transition of a machine starts with Exit on the current (default) state's node; with none registered the run faults there before any hook runs |
| Protocol.RunProtocol | StateMachine/Core/SkStateMachine.cs:159-184 | over a whole run the list and the earlier trace are kept, only Enter, Update and Exit are called, every Enter follows an Exit, the flag is never cleared, and a completed run has the flag set and ends with an Exit |
| StateMachineSync.DefaultReaction | StateMachine/Core/SkStateNode.cs:76-82 | a default hook calls the machine's callback with the node's state and the phase; with no callback set it asks nothing |
| StateMachineSync.SkStateMachine.Hooks | StateMachine/Core/SkStateNode.cs:76-136 | the reaction of every hook of this machine's default nodes: the machine's callback applied to the node's own state |
| StateMachineSync.SkStateMachine.Serve | StateMachine/Core/SkStateMachine.cs:109-112 | a callback's request carried out through the class's MoveState or Shutdown changes the fields exactly as `Lifecycle.Perform` |
| StateMachineSync.SkStateMachine.constructor | StateMachine/Core/SkStateMachine.cs:73-83 | the fields start at the default state with an empty list; with autoRegister, one fresh node per domain value is registered in domain order |
| StateMachineSync.SkStateMachine.AutoRegister | StateMachine/Core/SkStateMachine.cs:79-82 | the foreach loop registers one fresh node per domain value, in order, and the fields change as the auto-registration function says |
| StateMachineSync.SkStateMachine.GetStateNode | StateMachine/Core/SkStateMachine.cs:100-103 | None exactly when no entry is bound to the state; otherwise the node of the first entry bound to it |
| StateMachineSync.SkStateMachine.MoveState | StateMachine/Core/SkStateMachine.cs:109-112 | sets `next` and changes nothing else |
| StateMachineSync.SkStateMachine.Shutdown | StateMachine/Core/SkStateMachine.cs:189-192 | sets the flag and changes nothing else |
| StateMachineSync.SkStateMachine.RegisterStateNode | StateMachine/Core/SkStateMachine.cs:119-135 | changes the list, fields and trace exactly as registration under the append-duplicate policy (see the Registry rows) |
| StateMachineSync.SkStateMachine.UnRegisterStateNode | StateMachine/Core/SkStateMachine.cs:141-153 | changes the list, fields and trace exactly as unregistration |
| StateMachineSync.SkStateMachine.Step | StateMachine/Core/SkStateMachine.cs:165-180 | one loop body, equal to the pass function (see the Protocol rows), including its fault on a failed lookup |
| StateMachineSync.SkStateMachine.StartStateMachine | StateMachine/Core/SkStateMachine.cs:159-184 | the loop and the final Exit, with outcome and new fields equal to the run function |
| StateMachineSync.SkStateMachine.Teardown | StateMachine/Core/SkStateMachine.cs:85-93 | the finalizer's work: every domain value unregistered in order, then the list dropped |
| StateMachineSync.SkStateNode.constructor | StateMachine/Core/SkStateNode.cs:67-71 | the node's state and owning machine are set here and are constants afterwards |
| StateMachineSync.SkStateNode.MoveNextState | StateMachine/Core/SkStateNode.cs:52-55 | same effect as the machine's MoveState: sets `next` and nothing else |
| StateMachineSync.SkStateNode.StateInitialize | StateMachine/Core/SkStateNode.cs:76-82 | records the call; with a callback set, only its first step takes effect |
| StateMachineSync.SkStateNode.StateEnter | StateMachine/Core/SkStateNode.cs:88-96 | records the call; with a callback set, the whole callback takes effect |
| StateMachineSync.SkStateNode.StateUpdate | StateMachine/Core/SkStateNode.cs:102-110 | records the call; with a callback set, the whole callback takes effect |
| StateMachineSync.SkStateNode.StateExit | StateMachine/Core/SkStateNode.cs:116-124 | records the call; with a callback set, the whole callback takes effect |
| StateMachineSync.SkStateNode.StateFinalize | StateMachine/Core/SkStateNode.cs:129-136 | records the call; with a callback set, only its first step takes effect |
| StateMachineAsync.DefaultReaction | StateMachine/Core/SkStateNodeAsync.cs:71-77 | a default hook of the task variant calls the machine's callback with the node's state, the phase and the node's token; with no callback set it asks nothing |
| StateMachineAsync.SkStateMachineAsync.Hooks | StateMachine/Core/SkStateNodeAsync.cs:71-125 | the reaction of every hook of this machine's default nodes: the machine's callback applied to the node's own state and token |
| StateMachineAsync.SkStateMachineAsync.Serve | StateMachine/Core/SKStateMachineAsync.cs:114-118 | a callback's request carried out through the class's MoveState or Shutdown changes the fields exactly as `Lifecycle.Perform` |
| StateMachineAsync.AsyncRun | StateMachine/Core/SKStateMachineAsync.cs:170-196 | the task loop: as the coroutine loop, except that the iteration that finds the token cancelled calls Shutdown and leaves the loop without a pass (stated by `AsyncRunUncancelled`, `CancelAfterPasses` and `CancelledRunDrains`) |
| StateMachineAsync.AsyncStart | StateMachine/Core/SKStateMachineAsync.cs:166-197 | the task variant's StartStateMachine: sets `next`, then runs the task loop (stated by `CancelledStart`) |
| StateMachineAsync.AsyncRunUncancelled | StateMachine/Core/SKStateMachineAsync.cs:170-194 | without cancellation during the driven iterations, the task loop behaves exactly as the coroutine loop |
| StateMachineAsync.CancelAfterPasses | StateMachine/Core/SKStateMachineAsync.cs:170-196 | cancellation first seen at iteration k gives k ordinary passes, then, if the loop is still going, Shutdown and one final Exit on the node current then |
| StateMachineAsync.CancelledRunDrains | StateMachine/Core/SKStateMachineAsync.cs:170-196 | cancellation seen at once sets the flag and calls only Exit on the current node, with no Enter or Update, and with `prev`, `cur` and the list unchanged; the final Exit's callback may still move `next`, and `next` is unchanged when it does not call MoveState |
| StateMachineAsync.CancelledStart | StateMachine/Core/SKStateMachineAsync.cs:166-196 | a token cancelled before the start: the requested state is never reached, the only hook called is Exit on the current (default) state's node, and with no node for it the run faults there |
| StateMachineAsync.SkStateMachineAsync.constructor | StateMachine/Core/SKStateMachineAsync.cs:77-88 | the fields start at the default state with an empty list; with autoRegister, one fresh node per domain value, sharing the machine's token, is registered in domain order |
| StateMachineAsync.SkStateMachineAsync.AutoRegister | StateMachine/Core/SKStateMachineAsync.cs:84-87 | the foreach loop registers one fresh node per domain value, in order, each with the machine's token |
| StateMachineAsync.SkStateMachineAsync.GetStateNode | StateMachine/Core/SKStateMachineAsync.cs:105-108 | None exactly when no entry is bound to the state; otherwise the node of the first entry bound to it |
| StateMachineAsync.SkStateMachineAsync.MoveState | StateMachine/Core/SKStateMachineAsync.cs:114-118 | sets `next` and changes nothing else |
| StateMachineAsync.SkStateMachineAsync.Shutdown | StateMachine/Core/SKStateMachineAsync.cs:202-206 | sets the flag and changes nothing else |
| StateMachineAsync.SkStateMachineAsync.RegisterStateNode | StateMachine/Core/SKStateMachineAsync.cs:125-142 | changes the list, fields and trace exactly as registration under the finalize-and-replace policy, keeping the list duplicate-free |
| StateMachineAsync.SkStateMachineAsync.UnRegisterStateNode | StateMachine/Core/SKStateMachineAsync.cs:148-160 | changes the list, fields and trace exactly as unregistration, keeping the list duplicate-free |
| StateMachineAsync.SkStateMachineAsync.Step | StateMachine/Core/SKStateMachineAsync.cs:177-193 | one uncancelled loop body, equal to the pass function |
| StateMachineAsync.SkStateMachineAsync.StartStateMachine | StateMachine/Core/SKStateMachineAsync.cs:166-197 | the loop with its per-iteration cancellation check and the final Exit, with outcome and new fields equal to the task run function |
| StateMachineAsync.SkStateMachineAsync.Teardown | StateMachine/Core/SKStateMachineAsync.cs:90-98 | the finalizer's work; when every registered state is a domain value, exactly one Finalize call per registered entry is made, and the node of every entry is finalized |
| StateMachineAsync.SkStateNodeAsync.constructor | StateMachine/Core/SkStateNodeAsync.cs:61-66 | the node's state, owning machine and token are set here and are constants afterwards |
| StateMachineAsync.SkStateNodeAsync.MoveNextState | StateMachine/Core/SkStateNodeAsync.cs:46-49 | same effect as the machine's MoveState, already on return |
| StateMachineAsync.SkStateNodeAsync.StateInitialize | StateMachine/Core/SkStateNodeAsync.cs:71-77 | records the call; with a callback set, it gets the node's token and only its part before the first pending await takes effect |
| StateMachineAsync.SkStateNodeAsync.StateEnter | StateMachine/Core/SkStateNodeAsync.cs:83-89 | records the call; with a callback set, it gets the node's token and takes effect in full |
| StateMachineAsync.SkStateNodeAsync.StateUpdate | StateMachine/Core/SkStateNodeAsync.cs:95-101 | records the call; with a callback set, it gets the node's token and takes effect in full |
| StateMachineAsync.SkStateNodeAsync.StateExit | StateMachine/Core/SkStateNodeAsync.cs:107-113 | records the call; with a callback set, it gets the node's token and takes effect in full |
| StateMachineAsync.SkStateNodeAsync.StateFinalize | StateMachine/Core/SkStateNodeAsync.cs:118-125 | records the call; with a callback set, it gets the node's token and only its part before the first pending await takes effect |
| InputProcessing.Covers | InputProcessor/Core/InputProcessor.cs:98-99 | the FindAll predicate: the record has started at the offset, and has not ended when its duration is positive (stated by `OpenEndedRecord`) |
| InputProcessing.ValidKeys | InputProcessor/Core/InputProcessor.cs:97-99 | FindAll: a record is kept exactly when it is in the timeline and live at the offset; never more records than the timeline (multiplicity is stated by `ValidKeysCounts`; the timeline order is kept by the definition but not stated, since no consumer depends on it) |
| InputProcessing.ValidKeysCounts | InputProcessor/Core/InputProcessor.cs:97-99 | FindAll keeps each live record exactly as many times as it occurs in the timeline, and no other record |
| InputProcessing.AllTriggered | InputProcessor/Core/InputProcessor.cs:103-116 | true exactly when every given record's key note is among the held notes |
| InputProcessing.Anchor | InputProcessor/Core/InputProcessor.cs:88-94 | an anchor already set is kept; an unset one is set to the call's time, so that call sees offset 0 |
| InputProcessing.Simulate | InputProcessor/Core/InputProcessor.cs:82-124 | empty lists answer false and keep the anchor; otherwise true exactly when some record is live at the offset and every live record's note is held |
| InputProcessing.AnchorPersists | InputProcessor/Core/InputProcessor.cs:88-91 | once anchored at a non-negative time, later calls keep the anchor |
| InputProcessing.AnchoringCallSeesZero | InputProcessor/Core/InputProcessor.cs:94 | the anchoring call compares at offset 0 |
| InputProcessing.NegativeTimeReanchors | InputProcessor/Core/InputProcessor.cs:88-91 | a call at a negative time from an unset anchor stores a value that still reads as unset, so the next call anchors again |
| InputProcessing.MoreNotesStillTrigger | InputProcessor/Core/InputProcessor.cs:101-117 | holding more notes never turns success into failure |
| InputProcessing.OpenEndedRecord | InputProcessor/Core/InputProcessor.cs:98-99 | a record with no positive duration stays live from its start on |
| InputProcessing.InputProcessor.constructor | InputProcessor/Core/InputProcessor.cs:70-74 | empty timeline, anchor unset (-1) |
| InputProcessing.InputProcessor.SimulateCombos | InputProcessor/Core/InputProcessor.cs:82-124 | the nested loops compute exactly the reference function's answer and new anchor, and the timeline is not changed |
| InputProcessing.InputProcessor.ResetTriggerTime | InputProcessor/Core/InputProcessor.cs:126-129 | the anchor is unset again and the timeline is kept |
| Samples.AllStatesDistinct | StateMachine/Sample/StateMachineSample.cs:38-46 | the samples' six enum values are distinct |
| Samples.SyncSampleCallback | StateMachine/Sample/StateMachineSample.cs:57-94 | the coroutine sample's callback: Enter on Init moves to Loading, Update on Loading calls Shutdown, both after a `yield return`; every other hook asks nothing |
| Samples.SampleSetup | StateMachine/Sample/StateMachineSample.cs:53 | auto-registration of the samples' enum gives one entry per value in enum order, six Initialize calls, and the default state |
| Samples.SyncSampleRun | StateMachine/Sample/StateMachineSample.cs:57-94 | the coroutine sample's run: Exit None, Enter Init, Exit Init, Enter Loading, Update Loading, final Exit Loading; it completes in Loading |
| Samples.StateMachineSample | StateMachine/Sample/StateMachineSample.cs:51-55 | OnEnable of the coroutine sample, through the class methods: the machine ends in Loading from Init, shut down, with the full hook sequence |
| Samples.AsyncSampleCallback | StateMachine/Sample/StateMachineAsyncSample.cs:88-128 | the task sample's callback: Enter on Init moves to Loading and Update on Loading moves to Shutdown, both after an await; Update on Shutdown calls Shutdown before its first pending await; every other hook asks nothing |
| Samples.AwaitNodeReaction | StateMachine/Sample/StateMachineAsyncSample.cs:50-69 | the AwaitStateNode's hooks: Enter only waits, Update calls Shutdown before its first pending await, and the inherited hooks forward to the callback |
| Samples.ShutdownNodeReplaced | StateMachine/Sample/StateMachineAsyncSample.cs:79 | registering the AwaitStateNode finalizes the auto-registered Shutdown node and moves Shutdown's entry to the end, without Initialize |
| Samples.AsyncSampleSetup | StateMachine/Sample/StateMachineAsyncSample.cs:75-79 | the task sample's setup: six Initialize calls, one Finalize call, the default state |
| Samples.AwaitNodeReactions | StateMachine/Sample/StateMachineAsyncSample.cs:50-69 | the AwaitStateNode's Update shuts the machine down; its Enter and Exit ask nothing |
| Samples.AsyncSampleLoadingPasses | StateMachine/Sample/StateMachineAsyncSample.cs:88-110 | the first three iterations of the task sample: Exit None and Enter Init, Exit Init and Enter Loading, Update Loading |
| Samples.AsyncSampleAwaitPasses | StateMachine/Sample/StateMachineAsyncSample.cs:50-69 | after Loading asks for Shutdown: Exit Loading, Enter and Update on the AwaitStateNode, final Exit on it |
| Samples.AsyncSampleTrace | StateMachine/Sample/StateMachineAsyncSample.cs:88-128 | the uncancelled task sample run for any registry wired like the sample's |
| Samples.AsyncSampleRun | StateMachine/Sample/StateMachineAsyncSample.cs:75-81 | the task sample's uncancelled run completes in Shutdown after five iterations, with the exact hook sequence |
| Samples.AsyncSampleCancelledWhileLoading | StateMachine/Sample/StateMachineAsyncSample.cs:83-86 | OnDisable after Loading's Update has finished, seen at the fourth iteration: shutdown in Loading, the AwaitStateNode never entered, Loading gets the final Exit (a cancel during that Update's delay throws instead; see Left out) |
| Samples.InputTestOutcomes | InputProcessor/Sample/InputTest.cs:43-119 | the three calls of the input sample answer false, true, false, with the anchor at 0 |
| Samples.InputTest | InputProcessor/Sample/InputTest.cs:43-121 | the input sample through the class: false, true, false |

## Left out

- Console and Debug logging and `MethodBase` reflection in register and unregister: no effect on the machine.
- `Enum.GetValues`: the enum's values are a sequence `Domain` given to the constructor. Enum values that alias one another are not modelled; `Registry.RegisterAllDistinct` assumes distinct values.
- Garbage-collected finalizers (`~SkStateMachine`, `~SkStateMachineAsync`): modelled as an explicit `Teardown` method that does the same work. The list set to null is modelled as the empty list.
- Schedulers and pacing: `yield return null`, `Task.Delay(1)`, `WaitForSeconds` and `Task.Delay(5000)` have no effect on the machine and are left out. How many iterations a scheduler drives is the `fuel` parameter; a run cut short by the fuel is `Suspended`, not an infinite loop.
- The rest of an Initialize or Finalize callback after its first step: in the task variant it is not awaited and runs later, interleaved with the caller; in the coroutine variant the enumerator is advanced once and dropped, so the rest never runs. Only the first step is modelled, at the call.
- Callbacks that throw, including `TaskCanceledException` from `Task.Delay(..., token)`: not modelled. A throwing callback ends the loop in the source.
- Callbacks that register or unregister nodes, or that replace or multicast the public delegate field: a callback can only request MoveState or Shutdown.
- Hook overrides: only the default hooks are modelled as methods. The sample's AwaitStateNode override is modelled at the level of the pure functions, through the hooks oracle.
- `CancellationTokenSource`: the token is a flag that only `Cancel` sets. In the source, outside code such as the sample's OnDisable may cancel it while the loop awaits. The class method `StartStateMachine` checks the token on every iteration, but nothing else runs during the call, so the token is fixed for that call. A cancel that arrives mid-run is modelled at the level of the pure functions, by `AsyncRun`'s `cancelIn` parameter.
- StateMachineSync.SkStateMachine.RegisterStateNode: requires the node to belong to this machine. A node built for another machine would forward its hooks to that machine, which is not modelled.
- StateMachineAsync.SkStateMachineAsync.RegisterStateNode: requires the node to belong to this machine, for the same reason.
- InputProcessing.InputProcessor.SimulateCombos: a null `KeyDatas` or `keyNotes` list is modelled as an empty one. The source answers false for both without touching the anchor, as the model does.
- InputProcessing.Simulate: single-precision rounding is not modelled; times are exact reals.
- InputProcessing.ValidKeys: the contract and `ValidKeysCounts` state which records FindAll keeps and how often, not that it keeps the timeline's order; the only consumers (the emptiness test and the all-notes-held check) do not depend on order.
- InputProcessor's type parameter `T` is unused by the source and is dropped. `InputKeyData` is a mutable class in the source but is modelled as a value; no core code mutates a record.
- Utility/Easing.cs and its sample are not part of this model: they are floating-point curves built on a Unity library that is not available.
