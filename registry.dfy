/**
 * Properties of the node registry shared by both variants: how
 * registration, duplicate registration, unregistration, auto-registration
 * and teardown change the entry list and which hooks they call.
 */
module Registry {
  import opened Lifecycle

  /** Appending never changes which entry List.Find returns for a bound state. */
  lemma FirstMatchAppend<T, N>(entries: seq<Entry<T, N>>, e: Entry<T, N>, s: T)
    requires Bound(entries, s)
    ensures FirstMatch(entries + [e], s) == FirstMatch(entries, s)
  {
    var i := FirstMatch(entries, s).value;
    assert (entries + [e])[i] == entries[i];
    assert Bound(entries + [e], s);
  }

  /** Appending an entry for an unbound state makes that entry the one List.Find returns. */
  lemma FirstMatchAppendUnbound<T, N>(entries: seq<Entry<T, N>>, e: Entry<T, N>)
    requires !Bound(entries, e.state)
    ensures FirstMatch(entries + [e], e.state) == Some(|entries|)
  {
    assert (entries + [e])[|entries|] == e;
    assert Bound(entries + [e], e.state);
  }

  /** Removing an entry keeps the others in order, so a state that was unbound stays unbound. */
  lemma RemoveAtKeeps<T, N>(entries: seq<Entry<T, N>>, i: nat)
    requires i < |entries|
    ensures forall e :: e in RemoveAt(entries, i) ==> e in entries
    ensures Unique(entries) ==> Unique(RemoveAt(entries, i))
    ensures forall t :: !Bound(entries, t) ==> !Bound(RemoveAt(entries, i), t)
  {
    var r := RemoveAt(entries, i);
    assert forall k :: 0 <= k < |r| ==> r[k] == entries[if k < i then k else k + 1];
  }

  /** Removing an entry of another state does not change which node a state looks up to. */
  lemma RemoveAtLookup<T, N>(entries: seq<Entry<T, N>>, i: nat, t: T)
    requires i < |entries| && entries[i].state != t
    ensures Lookup(RemoveAt(entries, i), t) == Lookup(entries, t)
  {
    var r := RemoveAt(entries, i);
    assert forall k :: 0 <= k < |r| ==> r[k] == entries[if k < i then k else k + 1];
    if Bound(entries, t) {
      var j := FirstMatch(entries, t).value;
      assert r[if j < i then j else j - 1] == entries[j];
    }
  }

  /**
   * Registering a state that has no entry appends exactly one entry and
   * calls Initialize on the new node once; nothing else in the list changes,
   * and the state now looks up to the new node.
   */
  lemma RegisterUnbound<T, N>(policy: DuplicatePolicy, c: Config<T, N>, hooks: (N, Phase) -> Reaction<T>, s: T, n: N)
    requires !Bound(c.entries, s)
    ensures Register(policy, c, hooks, s, n).entries == c.entries + [Entry(s, n)]
    ensures Register(policy, c, hooks, s, n).trace == c.trace + [Call(n, Initialize)]
    ensures Lookup(Register(policy, c, hooks, s, n).entries, s) == Some(n)
  {
    FirstMatchAppendUnbound(c.entries, Entry(s, n));
  }

  /**
   * The coroutine variant's duplicate registration: a second entry is
   * appended, no hook is called, and since lookup returns the first match
   * every state still finds the node it found before.
   */
  lemma AppendDuplicateKeepsFirst<T, N>(c: Config<T, N>, hooks: (N, Phase) -> Reaction<T>, s: T, n: N)
    requires Bound(c.entries, s)
    ensures Register(AppendDuplicate, c, hooks, s, n) == c.(entries := c.entries + [Entry(s, n)])
    ensures forall t :: Lookup(Register(AppendDuplicate, c, hooks, s, n).entries, t) == Lookup(c.entries, t)
  {
    var r := Register(AppendDuplicate, c, hooks, s, n);
    forall t ensures Lookup(r.entries, t) == Lookup(c.entries, t) {
      if Bound(c.entries, t) {
        FirstMatchAppend(c.entries, Entry(s, n), t);
      }
    }
  }

  /**
   * Unregistering a bound state calls Finalize on the first matching node
   * and removes exactly that entry; unregistering an unbound state changes
   * nothing.
   */
  lemma UnregisterRemovesFirst<T, N>(c: Config<T, N>, hooks: (N, Phase) -> Reaction<T>, s: T)
    ensures !Bound(c.entries, s) ==> Unregister(c, hooks, s) == c
    ensures Bound(c.entries, s) ==>
      var i := FirstMatch(c.entries, s).value;
      && Unregister(c, hooks, s).entries == c.entries[..i] + c.entries[i + 1..]
      && Unregister(c, hooks, s).trace == c.trace + [Call(c.entries[i].node, Finalize)]
  {
  }

  /**
   * With at most one entry per state, unregistering leaves the state
   * unbound, keeps the list duplicate-free, and leaves every other
   * state's lookup as it was.
   */
  lemma UnregisterUnique<T, N>(c: Config<T, N>, hooks: (N, Phase) -> Reaction<T>, s: T)
    requires Unique(c.entries)
    ensures Unique(Unregister(c, hooks, s).entries)
    ensures !Bound(Unregister(c, hooks, s).entries, s)
    ensures forall t :: t != s ==> Lookup(Unregister(c, hooks, s).entries, t) == Lookup(c.entries, t)
  {
    if Bound(c.entries, s) {
      var i := FirstMatch(c.entries, s).value;
      RemoveAtKeeps(c.entries, i);
      forall t | t != s ensures Lookup(RemoveAt(c.entries, i), t) == Lookup(c.entries, t) {
        RemoveAtLookup(c.entries, i, t);
      }
    }
  }

  /**
   * The task variant's duplicate registration on a duplicate-free list:
   * the old node is finalized, its entry removed, and the new entry
   * appended without Initialize; exactly one entry remains for the state,
   * bound to the new node, and every other state is unaffected.
   */
  lemma ReplaceDuplicate<T, N>(c: Config<T, N>, hooks: (N, Phase) -> Reaction<T>, s: T, n: N)
    requires Unique(c.entries) && Bound(c.entries, s)
    ensures var i := FirstMatch(c.entries, s).value;
      && Register(FinalizeAndReplace, c, hooks, s, n).entries == RemoveAt(c.entries, i) + [Entry(s, n)]
      && Register(FinalizeAndReplace, c, hooks, s, n).trace == c.trace + [Call(c.entries[i].node, Finalize)]
    ensures Unique(Register(FinalizeAndReplace, c, hooks, s, n).entries)
    ensures Lookup(Register(FinalizeAndReplace, c, hooks, s, n).entries, s) == Some(n)
    ensures forall t :: t != s ==> Lookup(Register(FinalizeAndReplace, c, hooks, s, n).entries, t) == Lookup(c.entries, t)
  {
    var u := Unregister(c, hooks, s);
    UnregisterUnique(c, hooks, s);
    var r := Register(FinalizeAndReplace, c, hooks, s, n);
    assert r.entries == u.entries + [Entry(s, n)];
    FirstMatchAppendUnbound(u.entries, Entry(s, n));
    forall t | t != s ensures Lookup(r.entries, t) == Lookup(c.entries, t) {
      if Bound(u.entries, t) {
        FirstMatchAppend(u.entries, Entry(s, n), t);
      }
    }
  }

  /** Registering keeps a duplicate-free list duplicate-free under the replacing policy. */
  lemma ReplacePolicyKeepsUnique<T, N>(c: Config<T, N>, hooks: (N, Phase) -> Reaction<T>, s: T, n: N)
    requires Unique(c.entries)
    ensures Unique(Register(FinalizeAndReplace, c, hooks, s, n).entries)
  {
    if Bound(c.entries, s) {
      ReplaceDuplicate(c, hooks, s, n);
    }
  }

  /** Auto-registration extended by one more (state, node) pair is one more RegisterStateNode. */
  lemma RegisterAllSnoc<T, N>(policy: DuplicatePolicy, c: Config<T, N>, hooks: (N, Phase) -> Reaction<T>,
                              states: seq<T>, nodes: seq<N>, s: T, n: N)
    requires |states| == |nodes|
    ensures RegisterAll(policy, c, hooks, states + [s], nodes + [n])
         == Register(policy, RegisterAll(policy, c, hooks, states, nodes), hooks, s, n)
  {
    assert (states + [s])[..|states|] == states;
    assert (nodes + [n])[..|nodes|] == nodes;
  }

  /**
   * Auto-registration over an enum's values: starting from an empty list,
   * the list ends with exactly one entry per value, in the order given,
   * each node initialized once and in that order. This holds under either
   * duplicate policy.
   */
  lemma {:induction false} RegisterAllDistinct<T, N>(policy: DuplicatePolicy, c: Config<T, N>, hooks: (N, Phase) -> Reaction<T>,
                                                     states: seq<T>, nodes: seq<N>)
    requires c.entries == [] && Distinct(states) && |states| == |nodes|
    ensures var r := RegisterAll(policy, c, hooks, states, nodes);
      && |r.entries| == |states|
      && (forall i :: 0 <= i < |states| ==> r.entries[i] == Entry(states[i], nodes[i]))
      && |r.trace| == |c.trace| + |nodes|
      && r.trace[..|c.trace|] == c.trace
      && (forall i :: 0 <= i < |nodes| ==> r.trace[|c.trace| + i] == Call(nodes[i], Initialize))
      && Unique(r.entries)
  {
    if |states| > 0 {
      var k := |states| - 1;
      RegisterAllDistinct(policy, c, hooks, states[..k], nodes[..k]);
      var before := RegisterAll(policy, c, hooks, states[..k], nodes[..k]);
      assert !Bound(before.entries, states[k]) by {
        forall j | 0 <= j < |before.entries| ensures before.entries[j].state != states[k] {
          assert before.entries[j].state == states[j];
        }
      }
      RegisterUnbound(policy, before, hooks, states[k], nodes[k]);
    }
  }

  /** One registration keeps `prev` and `cur`, and with quiet Initialize and Finalize callbacks also `next` and the flag. */
  lemma RegisterKeepsStates<T, N>(policy: DuplicatePolicy, c: Config<T, N>, hooks: (N, Phase) -> Reaction<T>, s: T, n: N)
    ensures var r := Register(policy, c, hooks, s, n);
      r.prev == c.prev && r.cur == c.cur
    ensures (forall m, p :: !Completes(p) ==> hooks(m, p).firstStep == NoRequest) ==>
      var r := Register(policy, c, hooks, s, n);
      r.next == c.next && r.shuttingDown == c.shuttingDown
  {
    if forall m, p :: !Completes(p) ==> hooks(m, p).firstStep == NoRequest {
      assert hooks(n, Initialize).firstStep == NoRequest;
      match FirstMatch(c.entries, s)
      case None =>
      case Some(i) =>
        assert hooks(c.entries[i].node, Finalize).firstStep == NoRequest;
    }
  }

  /**
   * Registration never moves the machine: `prev` and `cur` are kept, and
   * so are `next` and the shutdown flag when no Initialize or Finalize
   * callback makes a request before its first suspension.
   */
  lemma {:induction false} RegisterAllKeepsStates<T, N>(policy: DuplicatePolicy, c: Config<T, N>, hooks: (N, Phase) -> Reaction<T>,
                                                        states: seq<T>, nodes: seq<N>)
    requires |states| == |nodes|
    ensures var r := RegisterAll(policy, c, hooks, states, nodes);
      r.prev == c.prev && r.cur == c.cur
    ensures (forall n, p :: !Completes(p) ==> hooks(n, p).firstStep == NoRequest) ==>
      var r := RegisterAll(policy, c, hooks, states, nodes);
      r.next == c.next && r.shuttingDown == c.shuttingDown
    decreases |states|
  {
    if |states| > 0 {
      var k := |states| - 1;
      RegisterAllKeepsStates(policy, c, hooks, states[..k], nodes[..k]);
      RegisterKeepsStates(policy, RegisterAll(policy, c, hooks, states[..k], nodes[..k]), hooks, states[k], nodes[k]);
    }
  }

  /** In a list with one entry per distinct state, each state looks up to its own node. */
  lemma LookupDistinctEntries<T, N>(entries: seq<Entry<T, N>>, states: seq<T>, nodes: seq<N>, j: nat)
    requires Distinct(states) && |entries| == |states| == |nodes| && j < |states|
    requires forall i :: 0 <= i < |states| ==> entries[i] == Entry(states[i], nodes[i])
    ensures Lookup(entries, states[j]) == Some(nodes[j])
  {
    assert entries[j].state == states[j];
  }

  /** Finalize was called on node `n` at some position `from` or later of the trace. */
  ghost predicate FinalizedSince<N>(t: seq<Call<N>>, from: nat, n: N) {
    exists k :: from <= k < |t| && t[k] == Call(n, Finalize)
  }

  /** One unregistration on a duplicate-free registry, in the terms the teardown proof needs. */
  lemma UnregisterStep<T, N>(c: Config<T, N>, hooks: (N, Phase) -> Reaction<T>, s: T)
    requires Unique(c.entries)
    ensures var r := Unregister(c, hooks, s);
      && Unique(r.entries)
      && !Bound(r.entries, s)
      && (forall t :: !Bound(c.entries, t) ==> !Bound(r.entries, t))
      && (forall e :: e in r.entries ==> e in c.entries)
      && |r.entries| <= |c.entries|
      && |r.trace| == |c.trace| + (|c.entries| - |r.entries|)
      && r.trace[..|c.trace|] == c.trace
      && (forall k :: |c.trace| <= k < |r.trace| ==> r.trace[k].phase == Finalize)
  {
    UnregisterUnique(c, hooks, s);
    if Bound(c.entries, s) {
      RemoveAtKeeps(c.entries, FirstMatch(c.entries, s).value);
    }
  }

  /** An entry that one unregistration removes has Finalize called on its node. */
  lemma UnregisterFinalizesRemoved<T, N>(c: Config<T, N>, hooks: (N, Phase) -> Reaction<T>, s: T)
    ensures var r := Unregister(c, hooks, s);
      forall e :: e in c.entries ==> e in r.entries || r.trace == c.trace + [Call(e.node, Finalize)]
  {
    if Bound(c.entries, s) {
      var i := FirstMatch(c.entries, s).value;
      var r := Unregister(c, hooks, s);
      forall e | e in c.entries ensures e in r.entries || r.trace == c.trace + [Call(e.node, Finalize)] {
        var j :| 0 <= j < |c.entries| && c.entries[j] == e;
        if j < i {
          assert r.entries[j] == e;
        } else if j > i {
          assert r.entries[j - 1] == e;
        }
      }
    }
  }

  /**
   * Unregistering each state of a list, on a duplicate-free registry:
   * every listed state ends unbound, and only Finalize calls are made,
   * one per removed entry.
   */
  lemma {:induction false} UnregisterAllFinalizes<T, N>(c: Config<T, N>, hooks: (N, Phase) -> Reaction<T>, states: seq<T>)
    requires Unique(c.entries)
    ensures var r := UnregisterAll(c, hooks, states);
      && Unique(r.entries)
      && (forall e :: e in r.entries ==> e in c.entries)
      && (forall t :: t in states ==> !Bound(r.entries, t))
      && |r.entries| <= |c.entries|
      && |r.trace| == |c.trace| + (|c.entries| - |r.entries|)
      && r.trace[..|c.trace|] == c.trace
      && (forall k :: |c.trace| <= k < |r.trace| ==> r.trace[k].phase == Finalize)
  {
    if |states| > 0 {
      var k := |states| - 1;
      UnregisterAllFinalizes(c, hooks, states[..k]);
      var u := UnregisterAll(c, hooks, states[..k]);
      UnregisterStep(u, hooks, states[k]);
      var r := UnregisterAll(c, hooks, states);
      assert r == Unregister(u, hooks, states[k]);
      assert r.trace[..|u.trace|] == u.trace;
      assert r.trace[..|c.trace|] == u.trace[..|c.trace|];
      forall t | t in states ensures !Bound(r.entries, t) {
        if t != states[k] {
          assert t in states[..k];
        }
      }
    }
  }

  /** Unregistering each state of a list calls Finalize on the node of every entry it removes. */
  lemma {:induction false} UnregisterAllFinalizesEach<T, N>(c: Config<T, N>, hooks: (N, Phase) -> Reaction<T>, states: seq<T>)
    ensures |c.trace| <= |UnregisterAll(c, hooks, states).trace|
    ensures var r := UnregisterAll(c, hooks, states);
      forall e :: e in c.entries ==> e in r.entries || FinalizedSince(r.trace, |c.trace|, e.node)
  {
    if |states| > 0 {
      var k := |states| - 1;
      UnregisterAllFinalizesEach(c, hooks, states[..k]);
      var u := UnregisterAll(c, hooks, states[..k]);
      UnregisterFinalizesRemoved(u, hooks, states[k]);
      var r := UnregisterAll(c, hooks, states);
      assert r == Unregister(u, hooks, states[k]);
      forall e | e in c.entries ensures e in r.entries || FinalizedSince(r.trace, |c.trace|, e.node) {
        if e in u.entries {
          if e !in r.entries {
            assert r.trace[|u.trace|] == Call(e.node, Finalize);
          }
        } else {
          var m :| |c.trace| <= m < |u.trace| && u.trace[m] == Call(e.node, Finalize);
          assert r.trace[..|u.trace|] == u.trace;
          assert r.trace[m] == u.trace[m];
        }
      }
    }
  }

  /**
   * Teardown of a duplicate-free registry: when the states unregistered
   * cover every registered state, no entry is left, and exactly one
   * Finalize call per registered entry is made, on the node of every entry.
   */
  lemma TeardownEmpties<T, N>(c: Config<T, N>, hooks: (N, Phase) -> Reaction<T>, states: seq<T>)
    requires Unique(c.entries)
    requires forall e :: e in c.entries ==> e.state in states
    ensures UnregisterAll(c, hooks, states).entries == []
    ensures |UnregisterAll(c, hooks, states).trace| == |c.trace| + |c.entries|
    ensures forall k :: |c.trace| <= k < |UnregisterAll(c, hooks, states).trace| ==>
      UnregisterAll(c, hooks, states).trace[k].phase == Finalize
    ensures forall e :: e in c.entries ==> FinalizedSince(UnregisterAll(c, hooks, states).trace, |c.trace|, e.node)
  {
    UnregisterAllFinalizes(c, hooks, states);
    UnregisterAllFinalizesEach(c, hooks, states);
    var r := UnregisterAll(c, hooks, states);
    if |r.entries| > 0 {
      assert r.entries[0] in c.entries;
      assert Bound(r.entries, r.entries[0].state);
    }
  }
}
