/**
 * SkStateMachineAsync<T> and SkStateNodeAsync<T>: the task-based variant.
 *
 * It differs from the coroutine variant in three ways: registering a
 * state that already has a node finalizes and replaces that node
 * (`FinalizeAndReplace`), so the list never holds two entries for one
 * state; every loop iteration first checks a cancellation token and shuts
 * the machine down when cancellation was requested; and the callback also
 * receives that token.
 */
module StateMachineAsync {
  import opened Lifecycle
  import opened Registry

  /** The token passed to the machine and its nodes; Cancel stands for the owning source's Cancel. */
  class CancellationToken {
    var IsCancellationRequested: bool

    constructor ()
      ensures !IsCancellationRequested
    {
      IsCancellationRequested := false;
    }

    method Cancel()
      modifies this
      ensures IsCancellationRequested
    {
      IsCancellationRequested := true;
    }
  }

  /** OnStateChange of the task variant. */
  type OnStateChange<!T> = (T, Phase, CancellationToken) -> Reaction<T>

  /** What a default hook of a node for `stateType` asks of the machine: the callback's requests, or nothing when no callback is set. */
  function DefaultReaction<T>(callback: Option<OnStateChange<T>>, stateType: T, phase: Phase, token: CancellationToken): Reaction<T> {
    match callback
    case None => Quiet()
    case Some(f) => f(stateType, phase, token)
  }

  /**
   * The `while (!m_isShuttingDown)` loop of the task variant followed by the
   * final Exit. The token is first found cancelled at the top of iteration
   * `cancelIn` (counting from 0); the token is set from outside the machine,
   * so its timing is a parameter. That iteration calls Shutdown and leaves
   * the loop without running a pass.
   */
  function AsyncRun<T(==), N>(c: Config<T, N>, hooks: (N, Phase) -> Reaction<T>, cancelIn: nat, fuel: nat): RunResult<T, N>
    decreases fuel
  {
    if c.shuttingDown then Finish(Drain(c, hooks))
    else if fuel == 0 then RunResult(c, Suspended)
    else if cancelIn == 0 then Finish(Drain(c.(shuttingDown := true), hooks))
    else
      var p := Pass(c, hooks);
      if p.fault.Some? then RunResult(p.config, Faulted(p.fault.value))
      else AsyncRun(p.config, hooks, cancelIn - 1, fuel - 1)
  }

  /** StartStateMachine(s) of the task variant: set `next`, then loop. */
  function AsyncStart<T(==), N>(c: Config<T, N>, hooks: (N, Phase) -> Reaction<T>, cancelIn: nat, s: T, fuel: nat): RunResult<T, N> {
    AsyncRun(c.(next := s), hooks, cancelIn, fuel)
  }

  /**
   * Without cancellation during the driven iterations, the task variant's
   * loop does exactly what the coroutine variant's loop does.
   */
  lemma {:induction false} AsyncRunUncancelled<T, N>(c: Config<T, N>, hooks: (N, Phase) -> Reaction<T>, cancelIn: nat, fuel: nat)
    requires cancelIn >= fuel
    ensures AsyncRun(c, hooks, cancelIn, fuel) == Run(c, hooks, fuel)
    decreases fuel
  {
    if !c.shuttingDown && fuel > 0 {
      var p := Pass(c, hooks);
      if p.fault.None? {
        AsyncRunUncancelled(p.config, hooks, cancelIn - 1, fuel - 1);
      }
    }
  }

  /**
   * Cancellation found at iteration k: the run is k ordinary passes, and
   * if the loop is still going after them, Shutdown followed by the final
   * Exit on whatever node is current then.
   */
  lemma {:induction false} CancelAfterPasses<T, N>(c: Config<T, N>, hooks: (N, Phase) -> Reaction<T>, k: nat, fuel: nat)
    requires k < fuel
    ensures var r := Run(c, hooks, k);
      AsyncRun(c, hooks, k, fuel) ==
        if r.status == Suspended then Finish(Drain(r.config.(shuttingDown := true), hooks)) else r
    decreases k
  {
    if c.shuttingDown {
      assert Run(c, hooks, k) == Finish(Drain(c, hooks)) == AsyncRun(c, hooks, k, fuel);
    } else if k == 0 {
      assert Run(c, hooks, k) == RunResult(c, Suspended);
      assert AsyncRun(c, hooks, k, fuel) == Finish(Drain(c.(shuttingDown := true), hooks));
    } else {
      var p := Pass(c, hooks);
      if p.fault.None? {
        CancelAfterPasses(p.config, hooks, k - 1, fuel - 1);
        assert AsyncRun(c, hooks, k, fuel) == AsyncRun(p.config, hooks, k - 1, fuel - 1);
        assert Run(c, hooks, k) == Run(p.config, hooks, k - 1);
      } else {
        assert Run(c, hooks, k) == RunResult(p.config, Faulted(p.fault.value)) == AsyncRun(c, hooks, k, fuel);
      }
    }
  }

  /**
   * A run that finds cancellation requested at once (and the machine not
   * yet shut down) sets the shutdown flag and calls only Exit on the
   * current node: no Enter and no Update, and `prev`, `cur` and the
   * registry are left as they were. The Exit callback runs to completion
   * and may still move `next`; unless it calls MoveState, `next` is
   * unchanged too.
   */
  lemma CancelledRunDrains<T, N>(c: Config<T, N>, hooks: (N, Phase) -> Reaction<T>, fuel: nat, current: N)
    requires !c.shuttingDown && fuel > 0
    requires Lookup(c.entries, c.cur) == Some(current)
    ensures var r := AsyncRun(c, hooks, 0, fuel);
      && r.status == Completed
      && r.config.trace == c.trace + [Call(current, Exit)]
      && r.config.shuttingDown
      && r.config.entries == c.entries
      && r.config.prev == c.prev && r.config.cur == c.cur
    ensures !hooks(current, Exit).firstStep.Move? && !hooks(current, Exit).remainder.Move? ==>
      AsyncRun(c, hooks, 0, fuel).config.next == c.next
  {
  }

  /**
   * Cancelling before the start: the machine never reaches the requested
   * state. The only hook called is Exit on the node of the current state
   * (the default state on a fresh machine); with no node for that state
   * the run faults on it before any hook is called.
   */
  lemma CancelledStart<T, N>(c: Config<T, N>, hooks: (N, Phase) -> Reaction<T>, s: T, fuel: nat)
    requires !c.shuttingDown && fuel > 0
    ensures AsyncStart(c, hooks, 0, s, fuel).config.cur == c.cur
    ensures AsyncStart(c, hooks, 0, s, fuel).config.shuttingDown
    ensures Lookup(c.entries, c.cur).Some? ==>
      && AsyncStart(c, hooks, 0, s, fuel).status == Completed
      && AsyncStart(c, hooks, 0, s, fuel).config.trace == c.trace + [Call(Lookup(c.entries, c.cur).value, Exit)]
    ensures Lookup(c.entries, c.cur).None? ==>
      AsyncStart(c, hooks, 0, s, fuel) == RunResult(c.(next := s, shuttingDown := true), Faulted(c.cur))
  {
    if Lookup(c.entries, c.cur).Some? {
      CancelledRunDrains(c.(next := s), hooks, fuel, Lookup(c.entries, c.cur).value);
    }
  }

  class SkStateMachineAsync<T(==)> {
    var entries: seq<Entry<T, SkStateNodeAsync<T>>>
    var isShuttingDown: bool
    var prevState: T
    var nextState: T
    var curState: T
    const Token: CancellationToken

    /** The callback given at construction; None stands for a null delegate. */
    const StateChangeEvent: Option<OnStateChange<T>>
    /** The values of the state enum in declaration order (Enum.GetValues). */
    const Domain: seq<T>

    /** Every hook call made so far. */
    ghost var Trace: seq<Call<SkStateNodeAsync<T>>>
    /** The nodes created by auto-registration, one per value of Domain. */
    ghost var AutoNodes: seq<SkStateNodeAsync<T>>

    /** Every registered node belongs to this machine, and no state has two entries. */
    ghost predicate Valid()
      reads this
    {
      && (forall i :: 0 <= i < |entries| ==> entries[i].node.Machine == this)
      && Unique(entries)
    }

    ghost function Abs(): Config<T, SkStateNodeAsync<T>>
      reads this
    {
      Config(entries, prevState, curState, nextState, isShuttingDown, Trace)
    }

    /** The reaction of the default hooks of this machine's nodes. */
    function Hooks(): (SkStateNodeAsync<T>, Phase) -> Reaction<T> {
      (n: SkStateNodeAsync<T>, p: Phase) => DefaultReaction(StateChangeEvent, n.StateType, p, n.Token)
    }

    /**
     * The three state fields start at `zero`, the enum's default value.
     * With autoRegister, one fresh node per domain value, sharing the
     * machine's token, is registered in domain order.
     */
    constructor (defaultEventStatusCallback: Option<OnStateChange<T>>, token: CancellationToken, zero: T, domain: seq<T>, autoRegister: bool)
      ensures Valid()
      ensures StateChangeEvent == defaultEventStatusCallback && Token == token && Domain == domain
      ensures |AutoNodes| == if autoRegister then |domain| else 0
      ensures forall i :: 0 <= i < |AutoNodes| ==>
        && fresh(AutoNodes[i]) && AutoNodes[i].StateType == domain[i]
        && AutoNodes[i].Machine == this && AutoNodes[i].Token == token
      ensures Abs() == RegisterAll(FinalizeAndReplace, Initial(zero), Hooks(), domain[..|AutoNodes|], AutoNodes)
    {
      Token := token;
      StateChangeEvent := defaultEventStatusCallback;
      Domain := domain;
      entries := [];
      isShuttingDown := false;
      prevState, nextState, curState := zero, zero, zero;
      Trace := [];
      AutoNodes := [];
      new;
      if autoRegister {
        assert Abs() == Initial(zero);
        AutoNodes := AutoRegister();
        assert domain[..|AutoNodes|] == domain;
      }
    }

    /**
     * The constructor's foreach over the enum: for each value in order,
     * registers a fresh node for it. Returns the nodes created.
     */
    method AutoRegister() returns (ghost created: seq<SkStateNodeAsync<T>>)
      requires Valid()
      modifies this
      ensures Valid()
      ensures |created| == |Domain|
      ensures forall k :: 0 <= k < |created| ==>
        fresh(created[k]) && created[k].StateType == Domain[k] && created[k].Machine == this && created[k].Token == Token
      ensures Abs() == RegisterAll(FinalizeAndReplace, old(Abs()), Hooks(), Domain, created)
    {
      created := [];
      var i := 0;
      while i < |Domain|
        invariant 0 <= i <= |Domain|
        invariant Valid()
        invariant |created| == i
        invariant forall k :: 0 <= k < i ==>
          fresh(created[k]) && created[k].StateType == Domain[k] && created[k].Machine == this && created[k].Token == Token
        invariant Abs() == RegisterAll(FinalizeAndReplace, old(Abs()), Hooks(), Domain[..i], created)
      {
        var node := new SkStateNodeAsync(Domain[i], this, Token);
        RegisterStateNode(Domain[i], node);
        RegisterAllSnoc(FinalizeAndReplace, old(Abs()), Hooks(), Domain[..i], created, Domain[i], node);
        assert Domain[..i + 1] == Domain[..i] + [Domain[i]];
        created := created + [node];
        i := i + 1;
      }
      assert Domain[..i] == Domain;
    }

    /** The node registered for `stateType`, or None where the source gets null. */
    function GetStateNode(stateType: T): (r: Option<SkStateNodeAsync<T>>)
      reads this
      ensures r.None? <==> forall i :: 0 <= i < |entries| ==> entries[i].state != stateType
      ensures r.Some? ==> exists i :: 0 <= i < |entries| && entries[i] == Entry(stateType, r.value) &&
                                     forall j :: 0 <= j < i ==> entries[j].state != stateType
    {
      Lookup(entries, stateType)
    }

    /** Sets the next state and nothing else; the delay that follows has no effect on the machine. */
    method MoveState(nextStateType: T)
      modifies this
      ensures Abs() == old(Abs()).(next := nextStateType)
    {
      nextState := nextStateType;
    }

    /** Sets the shutdown flag and nothing else; the delay that follows has no effect on the machine. */
    method Shutdown()
      modifies this
      ensures Abs() == old(Abs()).(shuttingDown := true)
    {
      isShuttingDown := true;
    }

    /** Carries out a callback's request through MoveState or Shutdown. */
    method Serve(q: Request<T>)
      modifies this
      ensures Abs() == Perform(old(Abs()), q)
    {
      match q
      case NoRequest =>
      case Move(t) => MoveState(t);
      case Stop => Shutdown();
    }

    /**
     * A new state gets its entry and an Initialize call; a state that
     * already has a node gets that node finalized and removed, and the new
     * entry appended without Initialize. No state ever has two entries.
     */
    method RegisterStateNode(stateType: T, stateNode: SkStateNodeAsync<T>)
      requires Valid() && stateNode.Machine == this
      modifies this
      ensures Valid()
      ensures Abs() == Register(FinalizeAndReplace, old(Abs()), Hooks(), stateType, stateNode)
    {
      ReplacePolicyKeepsUnique(Abs(), Hooks(), stateType, stateNode);
      var found := GetStateNode(stateType);
      if found.None? {
        entries := entries + [Entry(stateType, stateNode)];
        stateNode.StateInitialize();
      } else {
        UnRegisterStateNode(stateType);
        entries := entries + [Entry(stateType, stateNode)];
      }
    }

    /** Finalizes the node registered for the state and removes its entry; no-op when unbound. */
    method UnRegisterStateNode(stateType: T)
      requires Valid()
      modifies this
      ensures Valid()
      ensures Abs() == Unregister(old(Abs()), Hooks(), stateType)
    {
      UnregisterUnique(Abs(), Hooks(), stateType);
      var found := FirstMatch(entries, stateType);
      if found.Some? {
        var i := found.value;
        entries[i].node.StateFinalize();
        assert forall k :: 0 <= k < |RemoveAt(entries, i)| ==>
          RemoveAt(entries, i)[k] == entries[if k < i then k else k + 1];
        entries := RemoveAt(entries, i);
      }
    }

    /** The body of one uncancelled loop iteration; returns the state whose lookup failed, if any. */
    method Step() returns (fault: Option<T>)
      requires Valid()
      modifies this
      ensures Valid()
      ensures PassResult(Abs(), fault) == Pass(old(Abs()), Hooks())
    {
      if curState != nextState {
        var leaving := GetStateNode(curState);
        if leaving.None? {
          return Some(curState);
        }
        leaving.value.StateExit();
        prevState := curState;
        curState := nextState;
        var entering := GetStateNode(nextState);
        if entering.None? {
          return Some(nextState);
        }
        entering.value.StateEnter();
      } else {
        var current := GetStateNode(curState);
        if current.None? {
          return Some(curState);
        }
        current.value.StateUpdate();
      }
      fault := None;
    }

    /**
     * Sets the next state and loops until the shutdown flag is seen or the
     * token is found cancelled (which calls Shutdown), then calls Exit on the
     * current node. At most `fuel` iterations are driven; a run still
     * looping after them is Suspended.
     */
    method StartStateMachine(target: T, fuel: nat) returns (status: Status<T>)
      requires Valid()
      modifies this
      ensures Valid()
      ensures RunResult(Abs(), status) ==
        AsyncStart(old(Abs()), Hooks(), if Token.IsCancellationRequested then 0 else fuel, target, fuel)
    {
      nextState := target;
      var budget := fuel;
      while !isShuttingDown
        invariant Valid()
        invariant AsyncRun(Abs(), Hooks(), if Token.IsCancellationRequested then 0 else budget, budget)
               == AsyncStart(old(Abs()), Hooks(), if Token.IsCancellationRequested then 0 else fuel, target, fuel)
        decreases budget, !isShuttingDown
      {
        if budget == 0 {
          return Suspended;
        }
        if Token.IsCancellationRequested {
          Shutdown();
          break;
        }
        var fault := Step();
        if fault.Some? {
          return Faulted(fault.value);
        }
        budget := budget - 1;
      }
      var current := GetStateNode(curState);
      if current.None? {
        return Faulted(curState);
      }
      current.value.StateExit();
      status := Completed;
    }

    /**
     * The finalizer's work as an explicit call: unregister every domain
     * value in order, then drop the list. When every registered state is a
     * domain value, each registered node is finalized exactly once.
     */
    method Teardown()
      requires Valid()
      modifies this
      ensures Valid()
      ensures Abs() == UnregisterAll(old(Abs()), Hooks(), Domain).(entries := [])
      ensures (forall e :: e in old(entries) ==> e.state in Domain) ==>
        && UnregisterAll(old(Abs()), Hooks(), Domain).entries == []
        && |Trace| == |old(Trace)| + |old(entries)|
        && (forall k :: |old(Trace)| <= k < |Trace| ==> Trace[k].phase == Finalize)
        && (forall e :: e in old(entries) ==> FinalizedSince(Trace, |old(Trace)|, e.node))
    {
      if forall e :: e in entries ==> e.state in Domain {
        TeardownEmpties(Abs(), Hooks(), Domain);
      }
      var i := 0;
      while i < |Domain|
        invariant 0 <= i <= |Domain|
        invariant Valid()
        invariant Abs() == UnregisterAll(old(Abs()), Hooks(), Domain[..i])
      {
        UnRegisterStateNode(Domain[i]);
        assert Domain[..i + 1][..i] == Domain[..i];
        i := i + 1;
      }
      assert Domain[..i] == Domain;
      entries := [];
    }
  }

  class SkStateNodeAsync<T(==)> {
    /** The state this node was built for, its machine and its token; all fixed at construction. */
    const StateType: T
    const Machine: SkStateMachineAsync<T>
    const Token: CancellationToken

    constructor (stateType: T, stateMachine: SkStateMachineAsync<T>, token: CancellationToken)
      ensures StateType == stateType && Machine == stateMachine && Token == token
    {
      Token := token;
      Machine := stateMachine;
      StateType := stateType;
    }

    /** Has the same effect as the owning machine's MoveState. */
    method MoveNextState(nextState: T)
      modifies Machine
      ensures Machine.Abs() == old(Machine.Abs()).(next := nextState)
    {
      Machine.MoveState(nextState);
    }

    /** Called without await: only the callback's part before its first pending await takes effect. */
    method StateInitialize()
      modifies Machine
      ensures Machine.Abs() == Invoke(old(Machine.Abs()), Machine.Hooks(), this, Initialize)
    {
      Machine.Trace := Machine.Trace + [Call(this, Initialize)];
      if Machine.StateChangeEvent.Some? {
        var run := Machine.StateChangeEvent.value(StateType, Initialize, Token);
        Machine.Serve(run.firstStep);
      }
    }

    /** Awaited by the loop: the whole callback takes effect. */
    method StateEnter()
      modifies Machine
      ensures Machine.Abs() == Invoke(old(Machine.Abs()), Machine.Hooks(), this, Enter)
    {
      Machine.Trace := Machine.Trace + [Call(this, Enter)];
      if Machine.StateChangeEvent.Some? {
        var run := Machine.StateChangeEvent.value(StateType, Enter, Token);
        Machine.Serve(run.firstStep);
        Machine.Serve(run.remainder);
      }
    }

    /** Awaited by the loop: the whole callback takes effect. */
    method StateUpdate()
      modifies Machine
      ensures Machine.Abs() == Invoke(old(Machine.Abs()), Machine.Hooks(), this, Update)
    {
      Machine.Trace := Machine.Trace + [Call(this, Update)];
      if Machine.StateChangeEvent.Some? {
        var run := Machine.StateChangeEvent.value(StateType, Update, Token);
        Machine.Serve(run.firstStep);
        Machine.Serve(run.remainder);
      }
    }

    /** Awaited by the loop: the whole callback takes effect. */
    method StateExit()
      modifies Machine
      ensures Machine.Abs() == Invoke(old(Machine.Abs()), Machine.Hooks(), this, Exit)
    {
      Machine.Trace := Machine.Trace + [Call(this, Exit)];
      if Machine.StateChangeEvent.Some? {
        var run := Machine.StateChangeEvent.value(StateType, Exit, Token);
        Machine.Serve(run.firstStep);
        Machine.Serve(run.remainder);
      }
    }

    /** Called without await: only the callback's part before its first pending await takes effect. */
    method StateFinalize()
      modifies Machine
      ensures Machine.Abs() == Invoke(old(Machine.Abs()), Machine.Hooks(), this, Finalize)
    {
      Machine.Trace := Machine.Trace + [Call(this, Finalize)];
      if Machine.StateChangeEvent.Some? {
        var run := Machine.StateChangeEvent.value(StateType, Finalize, Token);
        Machine.Serve(run.firstStep);
      }
    }
  }
}
