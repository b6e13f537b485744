/**
 * Properties of the driving loop shared by both variants: what one pass
 * records and changes, how shutdown drains the loop, and the ordering of
 * hook calls over a whole run.
 */
module Protocol {
  import opened Lifecycle

  /** Whether a callback run calls MoveState at all. */
  predicate Moves<T>(r: Reaction<T>) {
    r.firstStep.Move? || r.remainder.Move?
  }

  /** From index `from` on, every Enter call comes straight after an Exit call. */
  ghost predicate ExitBeforeEnter<N>(t: seq<Call<N>>, from: nat) {
    forall k :: from <= k < |t| && t[k].phase == Enter ==> from < k && t[k - 1].phase == Exit
  }

  /** From index `from` on, only the loop's hooks (Enter, Update, Exit) are called. */
  ghost predicate LoopPhases<N>(t: seq<Call<N>>, from: nat) {
    forall k :: from <= k < |t| ==> Completes(t[k].phase)
  }

  /**
   * A pass with a transition pending (`cur != next`) calls Exit on the
   * current node strictly before Enter on the new one; afterwards `prev`
   * is the old `cur` and `cur` is `next` as the Exit hook left it, which
   * is the old `next` unless that hook called MoveState.
   */
  lemma TransitionPass<T, N>(c: Config<T, N>, hooks: (N, Phase) -> Reaction<T>, leaving: N, entering: N)
    requires c.cur != c.next
    requires Lookup(c.entries, c.cur) == Some(leaving)
    requires Lookup(c.entries, Invoke(c, hooks, leaving, Exit).next) == Some(entering)
    ensures var r := Pass(c, hooks);
      && r.fault == None
      && r.config.trace == c.trace + [Call(leaving, Exit), Call(entering, Enter)]
      && r.config.prev == c.cur
      && r.config.cur == Invoke(c, hooks, leaving, Exit).next
      && r.config.entries == c.entries
    ensures !Moves(hooks(leaving, Exit)) ==> Pass(c, hooks).config.cur == c.next
  {
  }

  /**
   * A pass with no transition pending (`cur == next`) calls Update on the
   * current node exactly once and leaves `prev` and `cur` alone; unless
   * the hook calls MoveState, the machine is still steady afterwards.
   */
  lemma UpdatePass<T, N>(c: Config<T, N>, hooks: (N, Phase) -> Reaction<T>, current: N)
    requires c.cur == c.next
    requires Lookup(c.entries, c.cur) == Some(current)
    ensures var r := Pass(c, hooks);
      && r.fault == None
      && r.config.trace == c.trace + [Call(current, Update)]
      && r.config.prev == c.prev && r.config.cur == c.cur
      && r.config.entries == c.entries
    ensures !Moves(hooks(current, Update)) ==> Pass(c, hooks).config.next == c.cur
  {
  }

  /**
   * A lookup that finds no node ends the pass: for the current state
   * before any hook runs, for the new state after Exit has run and the
   * state fields have moved.
   */
  lemma PassFaults<T, N>(c: Config<T, N>, hooks: (N, Phase) -> Reaction<T>)
    ensures Lookup(c.entries, c.cur).None? ==> Pass(c, hooks) == PassResult(c, Some(c.cur))
    ensures c.cur != c.next && Lookup(c.entries, c.cur).Some? ==>
      var exited := Invoke(c, hooks, Lookup(c.entries, c.cur).value, Exit);
      Lookup(c.entries, exited.next).None? ==>
        Pass(c, hooks) == PassResult(exited.(prev := c.cur, cur := exited.next), Some(exited.next))
  {
  }

  /** What any single pass does to the trace, the registry and the shutdown flag. */
  lemma PassShape<T, N>(c: Config<T, N>, hooks: (N, Phase) -> Reaction<T>)
    ensures var r := Pass(c, hooks).config;
      && r.entries == c.entries
      && (c.shuttingDown ==> r.shuttingDown)
      && |c.trace| <= |r.trace| <= |c.trace| + 2
      && r.trace[..|c.trace|] == c.trace
      && ExitBeforeEnter(r.trace, |c.trace|)
      && LoopPhases(r.trace, |c.trace|)
  {
  }

  /**
   * Once the shutdown flag is set, the loop runs no further pass whatever
   * the fuel: it performs exactly one Exit on the current node and
   * completes, with `prev`, `cur` and the registry unchanged. The Exit
   * callback runs to completion and may still move `next`; unless it
   * calls MoveState, `next` is unchanged too.
   */
  lemma ShutdownDrains<T, N>(c: Config<T, N>, hooks: (N, Phase) -> Reaction<T>, fuel: nat, current: N)
    requires c.shuttingDown
    requires Lookup(c.entries, c.cur) == Some(current)
    ensures Run(c, hooks, fuel).status == Completed
    ensures Run(c, hooks, fuel).config.trace == c.trace + [Call(current, Exit)]
    ensures var r := Run(c, hooks, fuel).config;
      r.entries == c.entries && r.prev == c.prev && r.cur == c.cur && r.shuttingDown
    ensures !Moves(hooks(current, Exit)) ==> Run(c, hooks, fuel).config.next == c.next
  {
  }

  /**
   * A hook that calls Shutdown ends the loop at the next top-of-loop
   * check: the run is that pass followed by the final Exit, however much
   * more fuel there is.
   */
  lemma StopEndsLoop<T, N>(c: Config<T, N>, hooks: (N, Phase) -> Reaction<T>, fuel: nat)
    requires !c.shuttingDown
    requires Pass(c, hooks).fault.None? && Pass(c, hooks).config.shuttingDown
    ensures Run(c, hooks, fuel + 1) == Finish(Drain(Pass(c, hooks).config, hooks))
  {
  }

  /**
   * The flag is never cleared, so starting the loop again after shutdown
   * records only the final Exit of the current node, whatever state is
   * passed in.
   */
  lemma RestartAfterShutdown<T, N>(c: Config<T, N>, hooks: (N, Phase) -> Reaction<T>, s: T, fuel: nat, current: N)
    requires c.shuttingDown
    requires Lookup(c.entries, c.cur) == Some(current)
    ensures Start(c, hooks, s, fuel).status == Completed
    ensures Start(c, hooks, s, fuel).config.trace == c.trace + [Call(current, Exit)]
  {
    ShutdownDrains(c.(next := s), hooks, fuel, current);
  }

  /**
   * The first transition of a fresh machine starts with Exit on the node of
   * the current (default) state; when no node is registered for it, the run
   * fails there, before any hook is called.
   */
  lemma StartWithoutCurrentNode<T, N>(c: Config<T, N>, hooks: (N, Phase) -> Reaction<T>, s: T, fuel: nat)
    requires !c.shuttingDown && fuel > 0 && c.cur != s
    requires Lookup(c.entries, c.cur).None?
    ensures Start(c, hooks, s, fuel) == RunResult(c.(next := s), Faulted(c.cur))
  {
  }

  /**
   * Over a whole run: the registry is untouched, the earlier trace is kept,
   * only Enter, Update and Exit are called, every Enter comes straight
   * after an Exit, the flag is never cleared, and a completed run ends with
   * an Exit call and the flag set.
   */
  lemma {:induction false} RunProtocol<T, N>(c: Config<T, N>, hooks: (N, Phase) -> Reaction<T>, fuel: nat)
    ensures var r := Run(c, hooks, fuel).config;
      && r.entries == c.entries
      && |c.trace| <= |r.trace|
      && r.trace[..|c.trace|] == c.trace
      && ExitBeforeEnter(r.trace, |c.trace|)
      && LoopPhases(r.trace, |c.trace|)
      && (c.shuttingDown ==> r.shuttingDown)
    ensures Run(c, hooks, fuel).status == Completed ==>
      var r := Run(c, hooks, fuel).config;
      r.shuttingDown && |r.trace| > |c.trace| && r.trace[|r.trace| - 1].phase == Exit
    decreases fuel
  {
    if !c.shuttingDown && fuel > 0 {
      var p := Pass(c, hooks);
      PassShape(c, hooks);
      if p.fault.None? {
        RunProtocol(p.config, hooks, fuel - 1);
        var t := Run(c, hooks, fuel).config.trace;
        var mid := p.config.trace;
        assert t == Run(p.config, hooks, fuel - 1).config.trace;
        assert t[..|mid|] == mid;
        assert forall k :: 0 <= k < |mid| ==> t[k] == mid[k];
        assert t[..|c.trace|] == mid[..|c.trace|];
      }
    }
  }
}
