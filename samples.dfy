/**
 * The repository's sample programs, stated as runs of the model: the
 * coroutine sample (StateMachineSample.cs), the task sample with its
 * overriding node (StateMachineAsyncSample.cs) and the combo sample
 * (InputTest.cs).
 */
module Samples {
  import L = Lifecycle
  import opened Registry
  import StateMachineSync
  import StateMachineAsync
  import opened InputProcessing

  /** SystemLoadingStateEnum of both state-machine samples; `None` is the default value. */
  datatype SystemLoadingState = None | Init | Loading | Update | Shutdown | Finalize

  /** Enum.GetValues order. */
  const AllStates: seq<SystemLoadingState> := [None, Init, Loading, Update, Shutdown, Finalize]

  lemma AllStatesDistinct()
    ensures L.Distinct(AllStates)
  {
  }

  /**
   * The coroutine sample's callback: entering Init waits, then moves to
   * Loading; updating Loading waits, then shuts down. Both requests come
   * after a `yield return`, so they belong to the remainder.
   */
  function SyncSampleCallback(stateType: SystemLoadingState, status: L.Phase): L.Reaction<SystemLoadingState> {
    if status == L.Phase.Enter && stateType == Init then L.Reaction(L.NoRequest, L.Move(Loading))
    else if status == L.Phase.Update && stateType == Loading then L.Reaction(L.NoRequest, L.Stop)
    else L.Quiet()
  }

  /** The hook calls that Initialize `nodes` in order. */
  function Initializations<N>(nodes: seq<N>): (t: seq<L.Call<N>>)
    ensures |t| == |nodes|
    ensures forall i :: 0 <= i < |nodes| ==> t[i] == L.Call(nodes[i], L.Phase.Initialize)
  {
    if |nodes| == 0 then [] else Initializations(nodes[..|nodes| - 1]) + [L.Call(nodes[|nodes| - 1], L.Phase.Initialize)]
  }

  /**
   * A machine whose list holds one node per value in enum order, started
   * at Init from the default state: Exit None, Enter Init, Exit Init,
   * Enter Loading, Update Loading, and the final Exit Loading; the run
   * completes after three passes.
   */
  lemma SyncSampleRun<N>(c: L.Config<SystemLoadingState, N>, hooks: (N, L.Phase) -> L.Reaction<SystemLoadingState>,
                         nodes: seq<N>, fuel: nat)
    requires |nodes| == |AllStates| == |c.entries|
    requires forall i :: 0 <= i < |AllStates| ==> c.entries[i] == L.Entry(AllStates[i], nodes[i])
    requires forall i, p :: 0 <= i < |AllStates| ==> hooks(nodes[i], p) == SyncSampleCallback(AllStates[i], p)
    requires c.cur == None && !c.shuttingDown && fuel >= 3
    ensures L.Start(c, hooks, Init, fuel) == L.RunResult(
      c.(prev := Init, cur := Loading, next := Loading, shuttingDown := true,
         trace := c.trace + [L.Call(nodes[0], L.Phase.Exit), L.Call(nodes[1], L.Phase.Enter)]
                          + [L.Call(nodes[1], L.Phase.Exit), L.Call(nodes[2], L.Phase.Enter)]
                          + [L.Call(nodes[2], L.Phase.Update)]
                          + [L.Call(nodes[2], L.Phase.Exit)]),
      L.Completed)
  {
    AllStatesDistinct();
    LookupDistinctEntries(c.entries, AllStates, nodes, 0);
    LookupDistinctEntries(c.entries, AllStates, nodes, 1);
    LookupDistinctEntries(c.entries, AllStates, nodes, 2);
    assert hooks(nodes[0], L.Phase.Exit) == L.Quiet();
    assert hooks(nodes[1], L.Phase.Enter) == L.Reaction(L.NoRequest, L.Move(Loading));
    assert hooks(nodes[1], L.Phase.Exit) == L.Quiet();
    assert hooks(nodes[2], L.Phase.Enter) == L.Quiet();
    assert hooks(nodes[2], L.Phase.Update) == L.Reaction(L.NoRequest, L.Stop);
    assert hooks(nodes[2], L.Phase.Exit) == L.Quiet();
    var c0 := c.(next := Init);
    var c1 := c0.(prev := None, cur := Init, next := Loading,
                  trace := c.trace + [L.Call(nodes[0], L.Phase.Exit), L.Call(nodes[1], L.Phase.Enter)]);
    assert L.Pass(c0, hooks) == L.PassResult(c1, L.None);
    var c2 := c1.(prev := Init, cur := Loading,
                  trace := c1.trace + [L.Call(nodes[1], L.Phase.Exit), L.Call(nodes[2], L.Phase.Enter)]);
    assert L.Pass(c1, hooks) == L.PassResult(c2, L.None);
    var c3 := c2.(shuttingDown := true, trace := c2.trace + [L.Call(nodes[2], L.Phase.Update)]);
    assert L.Pass(c2, hooks) == L.PassResult(c3, L.None);
    assert L.Run(c3, hooks, fuel - 3) == L.RunResult(c3.(trace := c3.trace + [L.Call(nodes[2], L.Phase.Exit)]), L.Completed);
    assert L.Run(c0, hooks, fuel) == L.Run(c1, hooks, fuel - 1) == L.Run(c2, hooks, fuel - 2) == L.Run(c3, hooks, fuel - 3);
  }

  /**
   * Auto-registration of the samples' enum on a fresh machine, with
   * callbacks that make no request at Initialize or Finalize: one entry
   * per value in enum order, one Initialize call per node, and the
   * machine still in its default state.
   */
  lemma SampleSetup<N>(policy: L.DuplicatePolicy, hooks: (N, L.Phase) -> L.Reaction<SystemLoadingState>, nodes: seq<N>)
    requires |nodes| == |AllStates|
    requires forall m, p :: !L.Completes(p) ==> hooks(m, p).firstStep == L.NoRequest
    ensures var c := L.RegisterAll(policy, L.Initial(None), hooks, AllStates, nodes);
      && |c.entries| == |AllStates|
      && (forall i :: 0 <= i < |AllStates| ==> c.entries[i] == L.Entry(AllStates[i], nodes[i]))
      && c.trace == Initializations(nodes)
      && c.prev == None && c.cur == None && c.next == None && !c.shuttingDown
  {
    AllStatesDistinct();
    RegisterAllDistinct(policy, L.Initial(None), hooks, AllStates, nodes);
    RegisterAllKeepsStates(policy, L.Initial(None), hooks, AllStates, nodes);
    var c := L.RegisterAll(policy, L.Initial(None), hooks, AllStates, nodes);
    assert c.trace == Initializations(nodes);
  }

  /**
   * OnEnable of the coroutine sample: a machine built with the callback and
   * autoRegister, started at Init. Construction creates and initializes
   * one node per value (`nodes`, in enum order); the run then completes in
   * Loading, having come from Init.
   */
  method StateMachineSample(fuel: nat)
    returns (machine: StateMachineSync.SkStateMachine<SystemLoadingState>, status: L.Status<SystemLoadingState>,
             ghost nodes: seq<StateMachineSync.SkStateNode<SystemLoadingState>>)
    requires fuel >= 3
    ensures status == L.Completed
    ensures machine.prevState == Init && machine.curState == Loading && machine.isShuttingDown
    ensures |nodes| == |AllStates|
    ensures forall i :: 0 <= i < |nodes| ==> nodes[i].StateType == AllStates[i]
    ensures machine.Trace == Initializations(nodes)
      + [L.Call(nodes[0], L.Phase.Exit), L.Call(nodes[1], L.Phase.Enter)]
      + [L.Call(nodes[1], L.Phase.Exit), L.Call(nodes[2], L.Phase.Enter)]
      + [L.Call(nodes[2], L.Phase.Update)]
      + [L.Call(nodes[2], L.Phase.Exit)]
  {
    machine := new StateMachineSync.SkStateMachine(L.Some(SyncSampleCallback), None, AllStates, true);
    nodes := machine.AutoNodes;
    ghost var hooks := machine.Hooks();
    assert forall m: StateMachineSync.SkStateNode<SystemLoadingState>, p :: hooks(m, p) == SyncSampleCallback(m.StateType, p);
    assert AllStates[..|nodes|] == AllStates;
    SampleSetup(L.AppendDuplicate, hooks, nodes);
    SyncSampleRun(machine.Abs(), hooks, nodes, fuel);
    status := machine.StartStateMachine(Init, fuel);
  }

  /**
   * The task sample's callback: entering Init waits, then moves to
   * Loading; updating Loading waits, then moves to Shutdown; updating
   * Shutdown shuts the machine down at once (the flag is set before the
   * first pending await).
   */
  function AsyncSampleCallback(stateType: SystemLoadingState, status: L.Phase): L.Reaction<SystemLoadingState> {
    if status == L.Phase.Enter && stateType == Init then L.Reaction(L.NoRequest, L.Move(Loading))
    else if status == L.Phase.Update && stateType == Loading then L.Reaction(L.NoRequest, L.Move(Shutdown))
    else if status == L.Phase.Update && stateType == Shutdown then L.Reaction(L.Stop, L.NoRequest)
    else L.Quiet()
  }

  /**
   * The sample's AwaitStateNode for Shutdown: its Enter only waits, its
   * Update calls the machine's Shutdown itself; its other hooks are the
   * inherited ones, which forward to the callback.
   */
  function AwaitNodeReaction(status: L.Phase): L.Reaction<SystemLoadingState> {
    if status == L.Phase.Enter then L.Quiet()
    else if status == L.Phase.Update then L.Reaction(L.Stop, L.NoRequest)
    else AsyncSampleCallback(Shutdown, status)
  }

  /** The list order after the sample replaces the Shutdown node: the replacement goes to the end. */
  const ReplacedOrder: seq<SystemLoadingState> := [None, Init, Loading, Update, Finalize, Shutdown]

  /**
   * Registering the AwaitStateNode for Shutdown on the auto-registered
   * list: the old Shutdown node is finalized and its entry removed; the
   * new node is appended and not initialized.
   */
  lemma ShutdownNodeReplaced<N>(c: L.Config<SystemLoadingState, N>, hooks: (N, L.Phase) -> L.Reaction<SystemLoadingState>,
                                nodes: seq<N>, awaitNode: N)
    requires |nodes| == |AllStates|
    requires |c.entries| == |AllStates|
    requires forall i :: 0 <= i < |AllStates| ==> c.entries[i] == L.Entry(AllStates[i], nodes[i])
    requires forall m, p :: !L.Completes(p) ==> hooks(m, p).firstStep == L.NoRequest
    ensures var r := L.Register(L.FinalizeAndReplace, c, hooks, Shutdown, awaitNode);
      && r.entries == [L.Entry(None, nodes[0]), L.Entry(Init, nodes[1]), L.Entry(Loading, nodes[2]),
                       L.Entry(Update, nodes[3]), L.Entry(Finalize, nodes[5]), L.Entry(Shutdown, awaitNode)]
      && r.trace == c.trace + [L.Call(nodes[4], L.Phase.Finalize)]
      && r.prev == c.prev && r.cur == c.cur && r.next == c.next && r.shuttingDown == c.shuttingDown
  {
    var e := c.entries;
    assert e == [L.Entry(None, nodes[0]), L.Entry(Init, nodes[1]), L.Entry(Loading, nodes[2]),
                 L.Entry(Update, nodes[3]), L.Entry(Shutdown, nodes[4]), L.Entry(Finalize, nodes[5])];
    assert L.FirstMatch(e, Shutdown) == L.Some(4);
    assert L.RemoveAt(e, 4) == [e[0], e[1], e[2], e[3], e[5]] by {
      assert e[..4] == [e[0], e[1], e[2], e[3]];
      assert e[5..] == [e[5]];
    }
    RegisterKeepsStates(L.FinalizeAndReplace, c, hooks, Shutdown, awaitNode);
  }

  /**
   * OnEnable of the task sample up to the start: auto-registration, then
   * registering the AwaitStateNode for Shutdown. Six Initialize calls and
   * one Finalize call have been made, and the machine is still in its
   * default state.
   */
  lemma AsyncSampleSetup<N>(hooks: (N, L.Phase) -> L.Reaction<SystemLoadingState>, nodes: seq<N>, awaitNode: N)
    requires |nodes| == |AllStates|
    requires forall m, p :: !L.Completes(p) ==> hooks(m, p).firstStep == L.NoRequest
    ensures var c := L.Register(L.FinalizeAndReplace, L.RegisterAll(L.FinalizeAndReplace, L.Initial(None), hooks, AllStates, nodes),
                                hooks, Shutdown, awaitNode);
      && c.entries == [L.Entry(None, nodes[0]), L.Entry(Init, nodes[1]), L.Entry(Loading, nodes[2]),
                       L.Entry(Update, nodes[3]), L.Entry(Finalize, nodes[5]), L.Entry(Shutdown, awaitNode)]
      && c.trace == Initializations(nodes) + [L.Call(nodes[4], L.Phase.Finalize)]
      && c.prev == None && c.cur == None && c.next == None && !c.shuttingDown
  {
    SampleSetup(L.FinalizeAndReplace, hooks, nodes);
    var c0 := L.RegisterAll(L.FinalizeAndReplace, L.Initial(None), hooks, AllStates, nodes);
    ShutdownNodeReplaced(c0, hooks, nodes, awaitNode);
  }

  /** Where each state's node is found once the AwaitStateNode has replaced the Shutdown node. */
  lemma ReplacedLookups<N>(entries: seq<L.Entry<SystemLoadingState, N>>, nodes: seq<N>, awaitNode: N)
    requires |nodes| == |AllStates|
    requires entries == [L.Entry(None, nodes[0]), L.Entry(Init, nodes[1]), L.Entry(Loading, nodes[2]),
                         L.Entry(Update, nodes[3]), L.Entry(Finalize, nodes[5]), L.Entry(Shutdown, awaitNode)]
    ensures L.Lookup(entries, None) == L.Some(nodes[0]) && L.Lookup(entries, Init) == L.Some(nodes[1])
    ensures L.Lookup(entries, Loading) == L.Some(nodes[2]) && L.Lookup(entries, Shutdown) == L.Some(awaitNode)
  {
    var listed := [nodes[0], nodes[1], nodes[2], nodes[3], nodes[5], awaitNode];
    assert L.Distinct(ReplacedOrder);
    LookupDistinctEntries(entries, ReplacedOrder, listed, 0);
    LookupDistinctEntries(entries, ReplacedOrder, listed, 1);
    LookupDistinctEntries(entries, ReplacedOrder, listed, 2);
    LookupDistinctEntries(entries, ReplacedOrder, listed, 5);
  }

  /** What the task sample's callback does in the hooks its run calls on None, Init and Loading. */
  lemma AsyncSampleReactions<N>(hooks: (N, L.Phase) -> L.Reaction<SystemLoadingState>, nodes: seq<N>)
    requires |nodes| == |AllStates|
    requires forall i, p :: 0 <= i < |AllStates| && i != 4 ==> hooks(nodes[i], p) == AsyncSampleCallback(AllStates[i], p)
    ensures hooks(nodes[0], L.Phase.Exit) == L.Quiet()
    ensures hooks(nodes[1], L.Phase.Enter) == L.Reaction(L.NoRequest, L.Move(Loading))
    ensures hooks(nodes[1], L.Phase.Exit) == L.Quiet()
    ensures hooks(nodes[2], L.Phase.Enter) == L.Quiet()
    ensures hooks(nodes[2], L.Phase.Update) == L.Reaction(L.NoRequest, L.Move(Shutdown))
    ensures hooks(nodes[2], L.Phase.Exit) == L.Quiet()
  {
    assert hooks(nodes[0], L.Phase.Exit) == AsyncSampleCallback(None, L.Phase.Exit);
    assert hooks(nodes[1], L.Phase.Enter) == AsyncSampleCallback(Init, L.Phase.Enter);
    assert hooks(nodes[1], L.Phase.Exit) == AsyncSampleCallback(Init, L.Phase.Exit);
    assert hooks(nodes[2], L.Phase.Enter) == AsyncSampleCallback(Loading, L.Phase.Enter);
    assert hooks(nodes[2], L.Phase.Update) == AsyncSampleCallback(Loading, L.Phase.Update);
    assert hooks(nodes[2], L.Phase.Exit) == AsyncSampleCallback(Loading, L.Phase.Exit);
  }

  /** The AwaitStateNode's hooks: its Update shuts the machine down at once, Enter and Exit do nothing. */
  lemma AwaitNodeReactions<N>(hooks: (N, L.Phase) -> L.Reaction<SystemLoadingState>, awaitNode: N)
    requires forall p :: hooks(awaitNode, p) == AwaitNodeReaction(p)
    ensures hooks(awaitNode, L.Phase.Enter) == L.Quiet() && hooks(awaitNode, L.Phase.Exit) == L.Quiet()
    ensures hooks(awaitNode, L.Phase.Update) == L.Reaction(L.Stop, L.NoRequest)
  {
    assert hooks(awaitNode, L.Phase.Enter) == AwaitNodeReaction(L.Phase.Enter);
    assert hooks(awaitNode, L.Phase.Exit) == AwaitNodeReaction(L.Phase.Exit);
    assert hooks(awaitNode, L.Phase.Update) == AwaitNodeReaction(L.Phase.Update);
  }

  /**
   * The nodes the task sample's loop reaches on its way to Loading, and
   * what their hooks do: Init's Enter asks for Loading, Loading's Update
   * asks for Shutdown, every other hook on the way is quiet.
   */
  ghost predicate LoadingWired<N>(entries: seq<L.Entry<SystemLoadingState, N>>, hooks: (N, L.Phase) -> L.Reaction<SystemLoadingState>,
                                  none: N, init: N, loading: N) {
    && L.Lookup(entries, None) == L.Some(none) && L.Lookup(entries, Init) == L.Some(init)
    && L.Lookup(entries, Loading) == L.Some(loading)
    && hooks(none, L.Phase.Exit) == L.Quiet() && hooks(init, L.Phase.Exit) == L.Quiet()
    && hooks(init, L.Phase.Enter) == L.Reaction(L.NoRequest, L.Move(Loading))
    && hooks(loading, L.Phase.Enter) == L.Quiet() && hooks(loading, L.Phase.Exit) == L.Quiet()
    && hooks(loading, L.Phase.Update) == L.Reaction(L.NoRequest, L.Move(Shutdown))
  }

  /** The node registered for Shutdown and what its hooks do: Update shuts down, Enter and Exit are quiet. */
  ghost predicate AwaitWired<N>(entries: seq<L.Entry<SystemLoadingState, N>>, hooks: (N, L.Phase) -> L.Reaction<SystemLoadingState>,
                                awaitNode: N) {
    && L.Lookup(entries, Shutdown) == L.Some(awaitNode)
    && hooks(awaitNode, L.Phase.Enter) == L.Quiet() && hooks(awaitNode, L.Phase.Exit) == L.Quiet()
    && hooks(awaitNode, L.Phase.Update) == L.Reaction(L.Stop, L.NoRequest)
  }

  /** The registry left by the task sample's setup wires None, Init and Loading as the loop needs. */
  lemma AsyncSampleWiring<N>(entries: seq<L.Entry<SystemLoadingState, N>>, hooks: (N, L.Phase) -> L.Reaction<SystemLoadingState>,
                             nodes: seq<N>, awaitNode: N)
    requires |nodes| == |AllStates|
    requires entries == [L.Entry(None, nodes[0]), L.Entry(Init, nodes[1]), L.Entry(Loading, nodes[2]),
                         L.Entry(Update, nodes[3]), L.Entry(Finalize, nodes[5]), L.Entry(Shutdown, awaitNode)]
    requires forall i, p :: 0 <= i < |AllStates| && i != 4 ==> hooks(nodes[i], p) == AsyncSampleCallback(AllStates[i], p)
    ensures LoadingWired(entries, hooks, nodes[0], nodes[1], nodes[2])
    ensures (forall p :: hooks(awaitNode, p) == AwaitNodeReaction(p)) ==> AwaitWired(entries, hooks, awaitNode)
  {
    ReplacedLookups(entries, nodes, awaitNode);
    AsyncSampleReactions(hooks, nodes);
    if forall p :: hooks(awaitNode, p) == AwaitNodeReaction(p) {
      AwaitNodeReactions(hooks, awaitNode);
    }
  }

  /**
   * The task sample's machine after Init has been entered and left and
   * Loading has been entered and updated once: Loading is current, the
   * move to Shutdown is pending.
   */
  function AfterLoading<N>(c: L.Config<SystemLoadingState, N>, none: N, init: N, loading: N): L.Config<SystemLoadingState, N> {
    c.(prev := Init, cur := Loading, next := Shutdown,
       trace := c.trace + [L.Call(none, L.Phase.Exit), L.Call(init, L.Phase.Enter)]
                        + [L.Call(init, L.Phase.Exit), L.Call(loading, L.Phase.Enter)]
                        + [L.Call(loading, L.Phase.Update)])
  }

  /**
   * The first three iterations of the task sample's loop, from the default
   * state towards Init: Exit None and Enter Init, Exit Init and Enter
   * Loading, Update Loading; none of them shuts the machine down.
   */
  lemma AsyncSampleLoadingPasses<N>(c: L.Config<SystemLoadingState, N>, hooks: (N, L.Phase) -> L.Reaction<SystemLoadingState>,
                                    none: N, init: N, loading: N, fuel: nat)
    requires LoadingWired(c.entries, hooks, none, init, loading)
    requires c.cur == None && !c.shuttingDown && fuel >= 3
    ensures L.Run(c.(next := Init), hooks, fuel) == L.Run(AfterLoading(c, none, init, loading), hooks, fuel - 3)
  {
    var c0 := c.(next := Init);
    var c1 := c0.(prev := None, cur := Init, next := Loading,
                  trace := c.trace + [L.Call(none, L.Phase.Exit), L.Call(init, L.Phase.Enter)]);
    assert L.Pass(c0, hooks) == L.PassResult(c1, L.None);
    var c2 := c1.(prev := Init, cur := Loading,
                  trace := c1.trace + [L.Call(init, L.Phase.Exit), L.Call(loading, L.Phase.Enter)]);
    assert L.Pass(c1, hooks) == L.PassResult(c2, L.None);
    var c3 := c2.(next := Shutdown, trace := c2.trace + [L.Call(loading, L.Phase.Update)]);
    assert L.Pass(c2, hooks) == L.PassResult(c3, L.None);
    assert L.Run(c0, hooks, fuel) == L.Run(c1, hooks, fuel - 1) == L.Run(c2, hooks, fuel - 2) == L.Run(c3, hooks, fuel - 3);
  }

  /**
   * The rest of the task sample's run once Loading has asked for Shutdown:
   * Exit Loading and Enter the AwaitStateNode; its Update shuts the
   * machine down; the final Exit goes to the AwaitStateNode.
   */
  lemma AsyncSampleAwaitPasses<N>(c: L.Config<SystemLoadingState, N>, hooks: (N, L.Phase) -> L.Reaction<SystemLoadingState>,
                                  loading: N, awaitNode: N, fuel: nat)
    requires L.Lookup(c.entries, Loading) == L.Some(loading) && hooks(loading, L.Phase.Exit) == L.Quiet()
    requires AwaitWired(c.entries, hooks, awaitNode)
    requires c.cur == Loading && c.next == Shutdown && !c.shuttingDown && fuel >= 2
    ensures L.Run(c, hooks, fuel) == L.RunResult(
      c.(prev := Loading, cur := Shutdown, shuttingDown := true,
         trace := c.trace + [L.Call(loading, L.Phase.Exit), L.Call(awaitNode, L.Phase.Enter)]
                          + [L.Call(awaitNode, L.Phase.Update)]
                          + [L.Call(awaitNode, L.Phase.Exit)]),
      L.Completed)
  {
    var c1 := c.(prev := Loading, cur := Shutdown,
                 trace := c.trace + [L.Call(loading, L.Phase.Exit), L.Call(awaitNode, L.Phase.Enter)]);
    assert L.Pass(c, hooks) == L.PassResult(c1, L.None);
    var c2 := c1.(shuttingDown := true, trace := c1.trace + [L.Call(awaitNode, L.Phase.Update)]);
    assert L.Pass(c1, hooks) == L.PassResult(c2, L.None);
    assert L.Run(c, hooks, fuel) == L.Run(c1, hooks, fuel - 1) == L.Run(c2, hooks, fuel - 2);
  }

  /**
   * The task sample's run, uncancelled: Exit None, Enter Init, Exit Init,
   * Enter Loading, Update Loading, Exit Loading, Enter and Update on the
   * AwaitStateNode, and the final Exit on it; the run completes in
   * Shutdown after five iterations (one group of calls per iteration).
   */
  lemma AsyncSampleRun<N>(c: L.Config<SystemLoadingState, N>, hooks: (N, L.Phase) -> L.Reaction<SystemLoadingState>,
                          nodes: seq<N>, awaitNode: N, cancelIn: nat, fuel: nat)
    requires |nodes| == |AllStates|
    requires c.entries == [L.Entry(None, nodes[0]), L.Entry(Init, nodes[1]), L.Entry(Loading, nodes[2]),
                           L.Entry(Update, nodes[3]), L.Entry(Finalize, nodes[5]), L.Entry(Shutdown, awaitNode)]
    requires forall i, p :: 0 <= i < |AllStates| && i != 4 ==> hooks(nodes[i], p) == AsyncSampleCallback(AllStates[i], p)
    requires forall p :: hooks(awaitNode, p) == AwaitNodeReaction(p)
    requires c.cur == None && !c.shuttingDown && fuel >= 5 && cancelIn >= fuel
    ensures StateMachineAsync.AsyncStart(c, hooks, cancelIn, Init, fuel) == L.RunResult(
      c.(prev := Loading, cur := Shutdown, next := Shutdown, shuttingDown := true,
         trace := c.trace + [L.Call(nodes[0], L.Phase.Exit), L.Call(nodes[1], L.Phase.Enter)]
                          + [L.Call(nodes[1], L.Phase.Exit), L.Call(nodes[2], L.Phase.Enter)]
                          + [L.Call(nodes[2], L.Phase.Update)]
                          + [L.Call(nodes[2], L.Phase.Exit), L.Call(awaitNode, L.Phase.Enter)]
                          + [L.Call(awaitNode, L.Phase.Update)]
                          + [L.Call(awaitNode, L.Phase.Exit)]),
      L.Completed)
  {
    AsyncSampleWiring(c.entries, hooks, nodes, awaitNode);
    AsyncSampleTrace(c, hooks, nodes[0], nodes[1], nodes[2], awaitNode, cancelIn, fuel);
  }

  /** The uncancelled run of the task sample, for any registry wired as its loop needs. */
  lemma AsyncSampleTrace<N>(c: L.Config<SystemLoadingState, N>, hooks: (N, L.Phase) -> L.Reaction<SystemLoadingState>,
                            none: N, init: N, loading: N, awaitNode: N, cancelIn: nat, fuel: nat)
    requires LoadingWired(c.entries, hooks, none, init, loading) && AwaitWired(c.entries, hooks, awaitNode)
    requires c.cur == None && !c.shuttingDown && fuel >= 5 && cancelIn >= fuel
    ensures StateMachineAsync.AsyncStart(c, hooks, cancelIn, Init, fuel) == L.RunResult(
      c.(prev := Loading, cur := Shutdown, next := Shutdown, shuttingDown := true,
         trace := c.trace + [L.Call(none, L.Phase.Exit), L.Call(init, L.Phase.Enter)]
                          + [L.Call(init, L.Phase.Exit), L.Call(loading, L.Phase.Enter)]
                          + [L.Call(loading, L.Phase.Update)]
                          + [L.Call(loading, L.Phase.Exit), L.Call(awaitNode, L.Phase.Enter)]
                          + [L.Call(awaitNode, L.Phase.Update)]
                          + [L.Call(awaitNode, L.Phase.Exit)]),
      L.Completed)
  {
    StateMachineAsync.AsyncRunUncancelled(c.(next := Init), hooks, cancelIn, fuel);
    AsyncSampleLoadingPasses(c, hooks, none, init, loading, fuel);
    AsyncSampleAwaitPasses(AfterLoading(c, none, init, loading), hooks, loading, awaitNode, fuel - 3);
  }

  /**
   * OnDisable after Loading's Update callback has finished and before the
   * next top-of-loop check: the token is found cancelled at the fourth
   * iteration, so the machine shuts down in Loading with the move to
   * Shutdown still pending; the AwaitStateNode is never entered, and
   * Loading gets its Exit. Cancelling during that callback's
   * `Task.Delay(5000, token)` instead throws out of the loop, so Loading
   * gets no final Exit; a throwing callback is outside this model.
   */
  lemma AsyncSampleCancelledWhileLoading<N>(c: L.Config<SystemLoadingState, N>, hooks: (N, L.Phase) -> L.Reaction<SystemLoadingState>,
                                            nodes: seq<N>, awaitNode: N, fuel: nat)
    requires |nodes| == |AllStates|
    requires c.entries == [L.Entry(None, nodes[0]), L.Entry(Init, nodes[1]), L.Entry(Loading, nodes[2]),
                           L.Entry(Update, nodes[3]), L.Entry(Finalize, nodes[5]), L.Entry(Shutdown, awaitNode)]
    requires forall i, p :: 0 <= i < |AllStates| && i != 4 ==> hooks(nodes[i], p) == AsyncSampleCallback(AllStates[i], p)
    requires c.cur == None && !c.shuttingDown && fuel > 3
    ensures StateMachineAsync.AsyncStart(c, hooks, 3, Init, fuel) == L.RunResult(
      c.(prev := Init, cur := Loading, next := Shutdown, shuttingDown := true,
         trace := c.trace + [L.Call(nodes[0], L.Phase.Exit), L.Call(nodes[1], L.Phase.Enter)]
                          + [L.Call(nodes[1], L.Phase.Exit), L.Call(nodes[2], L.Phase.Enter)]
                          + [L.Call(nodes[2], L.Phase.Update)]
                          + [L.Call(nodes[2], L.Phase.Exit)]),
      L.Completed)
  {
    AsyncSampleWiring(c.entries, hooks, nodes, awaitNode);
    StateMachineAsync.CancelAfterPasses(c.(next := Init), hooks, 3, fuel);
    AsyncSampleLoadingPasses(c, hooks, nodes[0], nodes[1], nodes[2], 3);
  }

  /** The timeline of InputTest.cs: keys 1 and 3 live from 0 for 1.6, key 2 live from 1.5 for 2. */
  const SampleTimeline: seq<InputKeyData> := [
    InputKeyData(KeyNoteData(1, 1), 0.0, 1.6),
    InputKeyData(KeyNoteData(2, 1), 1.5, 2.0),
    InputKeyData(KeyNoteData(3, 1), 0.0, 1.6)]

  /**
   * InputTest's three calls, as outcomes of Simulate: keys 1 and 2 at time
   * 0 fail (key 3 is live and missing; this call anchors the timeline at
   * 0); keys 1, 2, 3 at 0.4 succeed (key 2 is not live yet, and holding it
   * does no harm); keys 1 and 3 at 1.6 fail (key 2 is live by then).
   */
  lemma InputTestOutcomes()
    ensures Simulate(Unanchored, SampleTimeline, [KeyNoteData(1, 1), KeyNoteData(2, 1)], 0.0) == Outcome(false, 0.0)
    ensures Simulate(0.0, SampleTimeline, [KeyNoteData(1, 1), KeyNoteData(2, 1), KeyNoteData(3, 1)], 0.4) == Outcome(true, 0.0)
    ensures Simulate(0.0, SampleTimeline, [KeyNoteData(1, 1), KeyNoteData(3, 1)], 1.6) == Outcome(false, 0.0)
  {
    assert SampleTimeline[2] in SampleTimeline && Covers(SampleTimeline[2], 0.0);
    assert SampleTimeline[0] in SampleTimeline && Covers(SampleTimeline[0], 0.4);
    assert SampleTimeline[1] in SampleTimeline && Covers(SampleTimeline[1], 1.6);
  }

  /** InputTest.Start on a fresh processor: the three calls log false, true, false. */
  method InputTest() returns (first: bool, second: bool, third: bool)
    ensures !first && second && !third
  {
    InputTestOutcomes();
    var x := new InputProcessor();
    x.KeyDatas := SampleTimeline;
    first := x.SimulateCombos([KeyNoteData(1, 1), KeyNoteData(2, 1)], 0.0);
    second := x.SimulateCombos([KeyNoteData(1, 1), KeyNoteData(2, 1), KeyNoteData(3, 1)], 0.4);
    third := x.SimulateCombos([KeyNoteData(1, 1), KeyNoteData(3, 1)], 1.6);
  }
}
