/**
 * What the two state-machine variants (SkStateMachine.cs and
 * SKStateMachineAsync.cs) have in common: the lifecycle phases, what a
 * hook's callback may ask of its machine, the registry of (state, node)
 * entries, and one pass of the driving loop.
 *
 * Everything here is a function over an abstract configuration. The
 * classes of the two variants keep their fields in place and are proved
 * to change them exactly as these functions say.
 *
 * Generic parameters: `T` is the state enum, `N` the node type. A hook is
 * seen through `hooks(n, p)`, the Reaction that calling hook `p` on node
 * `n` produces; a default node's hooks forward to the machine's callback.
 */
module Lifecycle {

  datatype Option<T> = None | Some(value: T)

  /** SkStateNodeStatusEnum. */
  datatype Phase = Initialize | Enter | Update | Exit | Finalize

  /** The enum's values in declaration order. */
  const Phases: seq<Phase> := [Initialize, Enter, Update, Exit, Finalize]

  /** The enum's underlying value of a phase: its position in the declaration. */
  function Ordinal(p: Phase): (k: nat)
    ensures k < |Phases| && Phases[k] == p
  {
    match p
    case Initialize => 0
    case Enter => 1
    case Update => 2
    case Exit => 3
    case Finalize => 4
  }

  /** What a callback may do to the machine that owns it. */
  datatype Request<T> =
    | NoRequest
    | Move(target: T)   // MoveState(target)
    | Stop              // Shutdown()

  /**
   * One run of a callback, split at its first suspension point (a
   * `yield return` of the coroutine variant, an `await` that does not
   * complete at once in the task variant): the request made before that
   * point, and the one made after it.
   */
  datatype Reaction<T> = Reaction(firstStep: Request<T>, remainder: Request<T>)

  /** A callback run that asks nothing of the machine. */
  function Quiet<T>(): Reaction<T> {
    Reaction(NoRequest, NoRequest)
  }

  /** StateNodeDataItem: one registration. */
  datatype Entry<T, N> = Entry(state: T, node: N)

  /** A recorded hook invocation: hook `phase` was called on `node`. */
  datatype Call<N> = Call(node: N, phase: Phase)

  /**
   * The machine's fields: the node list in insertion order, the previous,
   * current and next state, the shutdown flag, and the hook calls made so far.
   */
  datatype Config<T, N> = Config(
    entries: seq<Entry<T, N>>,
    prev: T,
    cur: T,
    next: T,
    shuttingDown: bool,
    trace: seq<Call<N>>)

  /** A freshly constructed machine: no entries, all three states at default(T). */
  function Initial<T, N>(zero: T): Config<T, N> {
    Config([], zero, zero, zero, false, [])
  }

  ghost predicate Bound<T, N>(entries: seq<Entry<T, N>>, s: T) {
    exists i :: 0 <= i < |entries| && entries[i].state == s
  }

  /** At most one entry per state. */
  ghost predicate Unique<T, N>(entries: seq<Entry<T, N>>) {
    forall i, j :: 0 <= i < j < |entries| ==> entries[i].state != entries[j].state
  }

  ghost predicate Distinct<T>(states: seq<T>) {
    forall i, j :: 0 <= i < j < |states| ==> states[i] != states[j]
  }

  /** List.Find on the node list: the index of the first entry bound to `s`. */
  function FirstMatch<T(==), N>(entries: seq<Entry<T, N>>, s: T): (r: Option<nat>)
    ensures r.None? <==> !Bound(entries, s)
    ensures r.Some? ==> r.value < |entries| && entries[r.value].state == s
    ensures r.Some? ==> forall j :: 0 <= j < r.value ==> entries[j].state != s
  {
    if |entries| == 0 then None
    else if entries[0].state == s then Some(0)
    else
      match FirstMatch(entries[1..], s)
      case None =>
        assert forall j :: 1 <= j < |entries| ==> entries[j] == entries[1..][j - 1];
        None
      case Some(k) => Some(k + 1)
  }

  /** GetStateNode: the node of the first entry bound to `s`, or None (null). */
  function Lookup<T(==), N>(entries: seq<Entry<T, N>>, s: T): Option<N> {
    match FirstMatch(entries, s)
    case None => None
    case Some(i) => Some(entries[i].node)
  }

  function RemoveAt<X>(xs: seq<X>, i: nat): seq<X>
    requires i < |xs|
  {
    xs[..i] + xs[i + 1..]
  }

  /** The effect of one request on the machine's fields. */
  function Perform<T, N>(c: Config<T, N>, q: Request<T>): (r: Config<T, N>)
    ensures r.entries == c.entries && r.prev == c.prev && r.cur == c.cur && r.trace == c.trace
    ensures r.next == (if q.Move? then q.target else c.next)
    ensures r.shuttingDown <==> c.shuttingDown || q.Stop?
  {
    match q
    case NoRequest => c
    case Move(t) => c.(next := t)
    case Stop => c.(shuttingDown := true)
  }

  /**
   * Whether the caller runs a hook to completion. Enter, Update and Exit
   * are run to the end (the coroutine driver runs the enumerator out, the
   * task variant awaits the hook). Initialize and Finalize are not: the
   * coroutine variant advances the callback by one MoveNext, and the task
   * variant does not await the hook, so only the first step takes effect
   * at the call.
   */
  predicate Completes(p: Phase) {
    p == Enter || p == Update || p == Exit
  }

  /** Calling hook `p` on node `n`. */
  function Invoke<T, N>(c: Config<T, N>, hooks: (N, Phase) -> Reaction<T>, n: N, p: Phase): (r: Config<T, N>)
    ensures r.entries == c.entries && r.prev == c.prev && r.cur == c.cur
    ensures r.trace == c.trace + [Call(n, p)]
    ensures c.shuttingDown ==> r.shuttingDown
    ensures hooks(n, p) == Quiet() ==> r == c.(trace := c.trace + [Call(n, p)])
  {
    var called := c.(trace := c.trace + [Call(n, p)]);
    var reaction := hooks(n, p);
    var stepped := Perform(called, reaction.firstStep);
    if Completes(p) then Perform(stepped, reaction.remainder) else stepped
  }

  /** Only the first step of an Initialize or Finalize callback takes effect. */
  lemma OneStepPhases<T, N>(c: Config<T, N>, hooks1: (N, Phase) -> Reaction<T>, hooks2: (N, Phase) -> Reaction<T>, n: N, p: Phase)
    requires p == Initialize || p == Finalize
    requires hooks1(n, p).firstStep == hooks2(n, p).firstStep
    ensures Invoke(c, hooks1, n, p) == Invoke(c, hooks2, n, p)
  {
  }

  /** What registering an already-bound state does. */
  datatype DuplicatePolicy =
    | AppendDuplicate     // SkStateMachine: append a second entry, call no hook
    | FinalizeAndReplace  // SkStateMachineAsync: unregister the old entry, append the new one

  /** UnRegisterStateNode: Finalize the first matching node, then remove its entry. */
  function Unregister<T(==), N>(c: Config<T, N>, hooks: (N, Phase) -> Reaction<T>, s: T): Config<T, N> {
    match FirstMatch(c.entries, s)
    case None => c
    case Some(i) =>
      var finalized := Invoke(c, hooks, c.entries[i].node, Finalize);
      finalized.(entries := RemoveAt(c.entries, i))
  }

  /** RegisterStateNode under the given duplicate policy. */
  function Register<T(==), N>(policy: DuplicatePolicy, c: Config<T, N>, hooks: (N, Phase) -> Reaction<T>, s: T, n: N): Config<T, N> {
    if FirstMatch(c.entries, s).None? then
      Invoke(c.(entries := c.entries + [Entry(s, n)]), hooks, n, Initialize)
    else
      match policy
      case AppendDuplicate => c.(entries := c.entries + [Entry(s, n)])
      case FinalizeAndReplace =>
        var removed := Unregister(c, hooks, s);
        removed.(entries := removed.entries + [Entry(s, n)])
  }

  /** Registering `states[i]` with `nodes[i]` for each i in order (autoRegister). */
  function RegisterAll<T(==), N>(policy: DuplicatePolicy, c: Config<T, N>, hooks: (N, Phase) -> Reaction<T>,
                                 states: seq<T>, nodes: seq<N>): Config<T, N>
    requires |states| == |nodes|
    decreases |states|
  {
    if |states| == 0 then c
    else
      var k := |states| - 1;
      Register(policy, RegisterAll(policy, c, hooks, states[..k], nodes[..k]), hooks, states[k], nodes[k])
  }

  /** Unregistering each of `states` in order (the finalizer's loop). */
  function UnregisterAll<T(==), N>(c: Config<T, N>, hooks: (N, Phase) -> Reaction<T>, states: seq<T>): Config<T, N>
    decreases |states|
  {
    if |states| == 0 then c
    else
      var k := |states| - 1;
      Unregister(UnregisterAll(c, hooks, states[..k]), hooks, states[k])
  }

  /** The outcome of one pass: the new fields, and the state whose lookup failed, if any. */
  datatype PassResult<T, N> = PassResult(config: Config<T, N>, fault: Option<T>)

  /**
   * One pass of the loop body: Exit the current node, move `cur` to
   * `next`, Enter the new node; or Update the current node when no
   * transition is pending. A lookup that finds no node stops the pass
   * (the source dereferences null there).
   */
  function Pass<T(==), N>(c: Config<T, N>, hooks: (N, Phase) -> Reaction<T>): PassResult<T, N> {
    if c.cur != c.next then
      match Lookup(c.entries, c.cur)
      case None => PassResult(c, Some(c.cur))
      case Some(leaving) =>
        var exited := Invoke(c, hooks, leaving, Exit);
        var moved := exited.(prev := exited.cur, cur := exited.next);
        match Lookup(moved.entries, moved.next)
        case None => PassResult(moved, Some(moved.next))
        case Some(entering) => PassResult(Invoke(moved, hooks, entering, Enter), None)
    else
      match Lookup(c.entries, c.cur)
      case None => PassResult(c, Some(c.cur))
      case Some(current) => PassResult(Invoke(c, hooks, current, Update), None)
  }

  /** The final Exit after the loop has seen the shutdown flag. */
  function Drain<T(==), N>(c: Config<T, N>, hooks: (N, Phase) -> Reaction<T>): PassResult<T, N> {
    match Lookup(c.entries, c.cur)
    case None => PassResult(c, Some(c.cur))
    case Some(current) => PassResult(Invoke(c, hooks, current, Exit), None)
  }

  /** How a run of StartStateMachine ends. */
  datatype Status<T> =
    | Completed          // the loop saw the shutdown flag and the final Exit ran
    | Faulted(state: T)  // no node is registered for `state` (null dereference)
    | Suspended          // still looping when the driver stopped driving it

  datatype RunResult<T, N> = RunResult(config: Config<T, N>, status: Status<T>)

  function Finish<T, N>(d: PassResult<T, N>): RunResult<T, N> {
    RunResult(d.config, if d.fault.Some? then Faulted(d.fault.value) else Completed)
  }

  /** The `while (!m_isShuttingDown)` loop followed by the final Exit, driven for at most `fuel` passes. */
  function Run<T(==), N>(c: Config<T, N>, hooks: (N, Phase) -> Reaction<T>, fuel: nat): RunResult<T, N>
    decreases fuel
  {
    if c.shuttingDown then Finish(Drain(c, hooks))
    else if fuel == 0 then RunResult(c, Suspended)
    else
      var p := Pass(c, hooks);
      if p.fault.Some? then RunResult(p.config, Faulted(p.fault.value))
      else Run(p.config, hooks, fuel - 1)
  }

  /** StartStateMachine(s): set `next`, then loop. */
  function Start<T(==), N>(c: Config<T, N>, hooks: (N, Phase) -> Reaction<T>, s: T, fuel: nat): RunResult<T, N> {
    Run(c.(next := s), hooks, fuel)
  }
}
