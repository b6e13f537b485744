/**
 * SkStateMachine<T> and SkStateNode<T>: the variant driven as a coroutine
 * by a per-frame scheduler.
 *
 * The machine keeps its node list and state fields in place; every method
 * is proved to change them exactly as the corresponding function of the
 * Lifecycle module says, under the `AppendDuplicate` registration policy.
 * The ghost field `Trace` records each hook call (node and phase).
 */
module StateMachineSync {
  import opened Lifecycle
  import opened Registry

  /** OnStateChange: the callback a default node forwards its hooks to. */
  type OnStateChange<!T> = (T, Phase) -> Reaction<T>

  /** What a default hook of a node for `stateType` asks of the machine: the callback's requests, or nothing when no callback is set. */
  function DefaultReaction<T>(callback: Option<OnStateChange<T>>, stateType: T, phase: Phase): Reaction<T> {
    match callback
    case None => Quiet()
    case Some(f) => f(stateType, phase)
  }

  class SkStateMachine<T(==)> {
    var entries: seq<Entry<T, SkStateNode<T>>>
    var isShuttingDown: bool
    var prevState: T
    var nextState: T
    var curState: T

    /** The single callback given at construction; None stands for a null delegate. */
    const StateChangeEvent: Option<OnStateChange<T>>
    /** The values of the state enum in declaration order (Enum.GetValues). */
    const Domain: seq<T>

    /** Every hook call made so far. */
    ghost var Trace: seq<Call<SkStateNode<T>>>
    /** The nodes created by auto-registration, one per value of Domain. */
    ghost var AutoNodes: seq<SkStateNode<T>>

    /** Every registered node belongs to this machine. */
    ghost predicate Valid()
      reads this
    {
      forall i :: 0 <= i < |entries| ==> entries[i].node.Machine == this
    }

    ghost function Abs(): Config<T, SkStateNode<T>>
      reads this
    {
      Config(entries, prevState, curState, nextState, isShuttingDown, Trace)
    }

    /** The reaction of the default hooks of this machine's nodes. */
    function Hooks(): (SkStateNode<T>, Phase) -> Reaction<T> {
      (n: SkStateNode<T>, p: Phase) => DefaultReaction(StateChangeEvent, n.StateType, p)
    }

    /**
     * The three state fields start at `zero`, the enum's default value.
     * With autoRegister, one fresh node per domain value is registered in
     * domain order.
     */
    constructor (eventStatusCallback: Option<OnStateChange<T>>, zero: T, domain: seq<T>, autoRegister: bool)
      ensures Valid()
      ensures StateChangeEvent == eventStatusCallback && Domain == domain
      ensures |AutoNodes| == if autoRegister then |domain| else 0
      ensures forall i :: 0 <= i < |AutoNodes| ==>
        fresh(AutoNodes[i]) && AutoNodes[i].StateType == domain[i] && AutoNodes[i].Machine == this
      ensures Abs() == RegisterAll(AppendDuplicate, Initial(zero), Hooks(), domain[..|AutoNodes|], AutoNodes)
    {
      StateChangeEvent := eventStatusCallback;
      Domain := domain;
      entries := [];
      isShuttingDown := false;
      prevState, nextState, curState := zero, zero, zero;
      Trace := [];
      AutoNodes := [];
      new;
      if autoRegister {
        assert Abs() == Initial(zero);
        AutoNodes := AutoRegister();
        assert domain[..|AutoNodes|] == domain;
      }
    }

    /**
     * The constructor's foreach over the enum: for each value in order,
     * registers a fresh node for it. Returns the nodes created.
     */
    method AutoRegister() returns (ghost created: seq<SkStateNode<T>>)
      requires Valid()
      modifies this
      ensures Valid()
      ensures |created| == |Domain|
      ensures forall k :: 0 <= k < |created| ==>
        fresh(created[k]) && created[k].StateType == Domain[k] && created[k].Machine == this
      ensures Abs() == RegisterAll(AppendDuplicate, old(Abs()), Hooks(), Domain, created)
    {
      created := [];
      var i := 0;
      while i < |Domain|
        invariant 0 <= i <= |Domain|
        invariant Valid()
        invariant |created| == i
        invariant forall k :: 0 <= k < i ==>
          fresh(created[k]) && created[k].StateType == Domain[k] && created[k].Machine == this
        invariant Abs() == RegisterAll(AppendDuplicate, old(Abs()), Hooks(), Domain[..i], created)
      {
        var node := new SkStateNode(Domain[i], this);
        RegisterStateNode(Domain[i], node);
        RegisterAllSnoc(AppendDuplicate, old(Abs()), Hooks(), Domain[..i], created, Domain[i], node);
        assert Domain[..i + 1] == Domain[..i] + [Domain[i]];
        created := created + [node];
        i := i + 1;
      }
      assert Domain[..i] == Domain;
    }

    /** The node of the first entry for `stateType`, or None where the source gets null. */
    function GetStateNode(stateType: T): (r: Option<SkStateNode<T>>)
      reads this
      ensures r.None? <==> forall i :: 0 <= i < |entries| ==> entries[i].state != stateType
      ensures r.Some? ==> exists i :: 0 <= i < |entries| && entries[i] == Entry(stateType, r.value) &&
                                     forall j :: 0 <= j < i ==> entries[j].state != stateType
    {
      Lookup(entries, stateType)
    }

    /** Sets the next state and nothing else. */
    method MoveState(nextStateType: T)
      modifies this
      ensures Abs() == old(Abs()).(next := nextStateType)
    {
      nextState := nextStateType;
    }

    /** Sets the shutdown flag and nothing else; calling it again changes nothing more. */
    method Shutdown()
      modifies this
      ensures Abs() == old(Abs()).(shuttingDown := true)
    {
      isShuttingDown := true;
    }

    /** Carries out a callback's request through MoveState or Shutdown. */
    method Serve(q: Request<T>)
      modifies this
      ensures Abs() == Perform(old(Abs()), q)
    {
      match q
      case NoRequest =>
      case Move(t) => MoveState(t);
      case Stop => Shutdown();
    }

    /**
     * Appends the entry; calls Initialize on the node only when the state
     * had no entry yet. A duplicate is appended without any hook call.
     */
    method RegisterStateNode(stateType: T, stateNode: SkStateNode<T>)
      requires Valid() && stateNode.Machine == this
      modifies this
      ensures Valid()
      ensures Abs() == Register(AppendDuplicate, old(Abs()), Hooks(), stateType, stateNode)
    {
      var found := GetStateNode(stateType);
      if found.None? {
        entries := entries + [Entry(stateType, stateNode)];
        stateNode.StateInitialize();
      } else {
        entries := entries + [Entry(stateType, stateNode)];
      }
    }

    /** Finalizes the first node registered for the state and removes its entry; no-op when unbound. */
    method UnRegisterStateNode(stateType: T)
      requires Valid()
      modifies this
      ensures Valid()
      ensures Abs() == Unregister(old(Abs()), Hooks(), stateType)
    {
      var found := FirstMatch(entries, stateType);
      if found.Some? {
        var i := found.value;
        entries[i].node.StateFinalize();
        assert forall k :: 0 <= k < |RemoveAt(entries, i)| ==>
          RemoveAt(entries, i)[k] == entries[if k < i then k else k + 1];
        entries := RemoveAt(entries, i);
      }
    }

    /** One pass of the loop body of StartStateMachine; returns the state whose lookup failed, if any. */
    method Step() returns (fault: Option<T>)
      requires Valid()
      modifies this
      ensures Valid()
      ensures PassResult(Abs(), fault) == Pass(old(Abs()), Hooks())
    {
      if curState != nextState {
        var leaving := GetStateNode(curState);
        if leaving.None? {
          return Some(curState);
        }
        leaving.value.StateExit();
        prevState := curState;
        curState := nextState;
        var entering := GetStateNode(nextState);
        if entering.None? {
          return Some(nextState);
        }
        entering.value.StateEnter();
      } else {
        var current := GetStateNode(curState);
        if current.None? {
          return Some(curState);
        }
        current.value.StateUpdate();
      }
      fault := None;
    }

    /**
     * Sets the next state, loops until the shutdown flag is seen, then
     * calls Exit on the current node. The scheduler drives at most `fuel`
     * passes; a run still looping after them is Suspended.
     */
    method StartStateMachine(target: T, fuel: nat) returns (status: Status<T>)
      requires Valid()
      modifies this
      ensures Valid()
      ensures RunResult(Abs(), status) == Start(old(Abs()), Hooks(), target, fuel)
    {
      nextState := target;
      var budget := fuel;
      while !isShuttingDown
        invariant Valid()
        invariant Run(Abs(), Hooks(), budget) == Start(old(Abs()), Hooks(), target, fuel)
        decreases budget
      {
        if budget == 0 {
          return Suspended;
        }
        var fault := Step();
        if fault.Some? {
          return Faulted(fault.value);
        }
        budget := budget - 1;
      }
      var current := GetStateNode(curState);
      if current.None? {
        return Faulted(curState);
      }
      current.value.StateExit();
      status := Completed;
    }

    /** The finalizer's work as an explicit call: unregister every domain value in order, then drop the list. */
    method Teardown()
      requires Valid()
      modifies this
      ensures Valid()
      ensures Abs() == UnregisterAll(old(Abs()), Hooks(), Domain).(entries := [])
    {
      var i := 0;
      while i < |Domain|
        invariant 0 <= i <= |Domain|
        invariant Valid()
        invariant Abs() == UnregisterAll(old(Abs()), Hooks(), Domain[..i])
      {
        UnRegisterStateNode(Domain[i]);
        assert Domain[..i + 1][..i] == Domain[..i];
        i := i + 1;
      }
      assert Domain[..i] == Domain;
      entries := [];
    }
  }

  class SkStateNode<T(==)> {
    /** The state this node was built for and the machine it belongs to; both fixed at construction. */
    const StateType: T
    const Machine: SkStateMachine<T>

    constructor (stateType: T, stateMachine: SkStateMachine<T>)
      ensures StateType == stateType && Machine == stateMachine
    {
      StateType := stateType;
      Machine := stateMachine;
    }

    /** Has the same effect as the owning machine's MoveState. */
    method MoveNextState(nextState: T)
      modifies Machine
      ensures Machine.Abs() == old(Machine.Abs()).(next := nextState)
    {
      Machine.MoveState(nextState);
    }

    /** Advances the callback by one MoveNext: only its first step takes effect. */
    method StateInitialize()
      modifies Machine
      ensures Machine.Abs() == Invoke(old(Machine.Abs()), Machine.Hooks(), this, Initialize)
    {
      Machine.Trace := Machine.Trace + [Call(this, Initialize)];
      if Machine.StateChangeEvent.Some? {
        var run := Machine.StateChangeEvent.value(StateType, Initialize);
        Machine.Serve(run.firstStep);
      }
    }

    /** Hands the callback's enumerator to the driver, which runs it to the end. */
    method StateEnter()
      modifies Machine
      ensures Machine.Abs() == Invoke(old(Machine.Abs()), Machine.Hooks(), this, Enter)
    {
      Machine.Trace := Machine.Trace + [Call(this, Enter)];
      if Machine.StateChangeEvent.Some? {
        var run := Machine.StateChangeEvent.value(StateType, Enter);
        Machine.Serve(run.firstStep);
        Machine.Serve(run.remainder);
      }
    }

    /** Hands the callback's enumerator to the driver, which runs it to the end. */
    method StateUpdate()
      modifies Machine
      ensures Machine.Abs() == Invoke(old(Machine.Abs()), Machine.Hooks(), this, Update)
    {
      Machine.Trace := Machine.Trace + [Call(this, Update)];
      if Machine.StateChangeEvent.Some? {
        var run := Machine.StateChangeEvent.value(StateType, Update);
        Machine.Serve(run.firstStep);
        Machine.Serve(run.remainder);
      }
    }

    /** Hands the callback's enumerator to the driver, which runs it to the end. */
    method StateExit()
      modifies Machine
      ensures Machine.Abs() == Invoke(old(Machine.Abs()), Machine.Hooks(), this, Exit)
    {
      Machine.Trace := Machine.Trace + [Call(this, Exit)];
      if Machine.StateChangeEvent.Some? {
        var run := Machine.StateChangeEvent.value(StateType, Exit);
        Machine.Serve(run.firstStep);
        Machine.Serve(run.remainder);
      }
    }

    /** Advances the callback by one MoveNext: only its first step takes effect. */
    method StateFinalize()
      modifies Machine
      ensures Machine.Abs() == Invoke(old(Machine.Abs()), Machine.Hooks(), this, Finalize)
    {
      Machine.Trace := Machine.Trace + [Call(this, Finalize)];
      if Machine.StateChangeEvent.Some? {
        var run := Machine.StateChangeEvent.value(StateType, Finalize);
        Machine.Serve(run.firstStep);
      }
    }
  }
}
