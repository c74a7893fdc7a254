/** What a close that leaves a column without a connection leads to: a route that no connection supports any more and
    that the network never gets rid of.

    A node whose predecessor is replaced by a PRED message closes the old connection and leaves the column
    (ring.c:456-459).  A node that leaves the ring closes all its connections and leaves all columns (ring.c:80-92);
    join_ring clears the table, but a direct join to itself does not (main.c:118-125). */
module StaleColumns {
  import opened Nodes
  import opened Wrappers
  import opened RoutingSpec
  import opened Network
  import opened LoopFreedom
  import opened Synchronization
  import opened Columns
  import opened Convergence
  import opened SoleConnections
  import opened Termination
  import opened Progress
  import opened Sums
  import SelfWithdrawal

  // No node believes it can reach one that it cannot.
  ghost predicate NoGhosts(s: Net) {
    forall n, r :: n != r && Best(Tab(s, n), r).Some? ==> exists w :: IsWalk(s, w, n, r)
  }

  // After `s` the network can become quiet, in the last of `states`, by steps that neither open a second connection
  // between two nodes nor leave a column without one.
  ghost predicate CanSettle(nodes: set<NodeId>, s: Net, states: seq<Net>, steps: seq<Step>) {
    && Steps(nodes, states, steps) && states[0] == s && Quiet(states[|steps|])
    && forall i :: 0 <= i < |steps| ==> SoleAt(states, steps, i)
  }

  lemma SettledHasNoGhosts(nodes: set<NodeId>, s: Net)
    requires Settled(nodes, s)
    ensures NoGhosts(s)
  {
    forall n, r | n != r && Best(Tab(s, n), r).Some? ensures exists w :: IsWalk(s, w, n, r) {
      QuietMeansShortest(nodes, s, n, r);
    }
  }

  lemma AcceptKeepsStale(nodes: set<NodeId>, s: Net, e: End, a: NodeId, b: NodeId, r: NodeId) returns (s': Net)
    requires LoopFree(nodes, s) && Stale(s, a, b, r) && Pending(s, e)
    ensures AcceptStep(s, e, s') && LoopFree(nodes, s') && Stale(s', a, b, r) && Ends(s') < Ends(s)
  {
    s' := AcceptExists(s, e);
    NextKeeps(nodes, s, Accept(e), s');
    WaitingShrinks(nodes, s, Accept(e), s');
    SubsetCount(Waiting(s'), Waiting(s) - {e});
    forall f | Joins(f, b, a) ensures !Introduced(s', f) {
      assert f != e ==> !Introduced(s, f);
    }
  }

  lemma CloseKeepsStale(nodes: set<NodeId>, s: Net, e: End, a: NodeId, b: NodeId, r: NodeId)
    returns (step: Step, s': Net)
    requires LoopFree(nodes, s) && Stale(s, a, b, r) && e in s.open
    ensures step.Close? && Next(nodes, s, step, s') && LoopFree(nodes, s') && Stale(s', a, b, r) && Ends(s') < Ends(s)
  {
    step, s' := CloseExists(nodes, s, e);
    NextKeeps(nodes, s, step, s');
    CloseLeavesFewer(nodes, s, step, s');
    forall f | Joins(f, b, a) ensures !Introduced(s', f) {
      assert !Introduced(s, f);
    }
    assert Joins(e, b, a) ==> !Introduced(s, e);
  }

  lemma WalkNeedsLink(s: Net, w: seq<NodeId>, n: NodeId, r: NodeId)
    requires IsWalk(s, w, n, r) && n != r
    ensures s.open != {}
  {
    assert Adjacent(s, w[0], w[1]);
  }

  lemma StaleIsGhost(nodes: set<NodeId>, s: Net, a: NodeId, b: NodeId, r: NodeId)
    requires LoopFree(nodes, s) && Stale(s, a, b, r) && s.open == {}
    ensures !NoGhosts(s)
  {
    assert GoodEntries(nodes, a, Tab(s, a)) && TableInv(Tab(s, a)) && Selected(Tab(s, a), Chosen(Tab(s, a), r), r);
    assert a != r && Best(Tab(s, a), r).Some?;
    forall w ensures !IsWalk(s, w, a, r) {
      if IsWalk(s, w, a, r) {
        WalkNeedsLink(s, w, a, r);
      }
    }
  }

  lemma OneMore(nodes: set<NodeId>, s: Net, step: Step, s': Net, states: seq<Net>, steps: seq<Step>)
    requires CanSettle(nodes, s', states, steps) && Next(nodes, s, step, s') && KeepsSole(s, step) && Harmless(s, step)
    ensures CanSettle(nodes, s, [s] + states, [step] + steps)
  {
    StepsPrepend(nodes, s, step, states, steps);
    forall i | 0 < i < |[step] + steps| ensures SoleAt([s] + states, [step] + steps, i) {
      assert SoleAt(states, steps, i - 1);
    }
  }

  // From a state with a stale column all connections can go down, and the stale path is still there.
  lemma {:induction false} GhostRemains(nodes: set<NodeId>, s: Net, a: NodeId, b: NodeId, r: NodeId)
    returns (states: seq<Net>, steps: seq<Step>)
    requires LoopFree(nodes, s) && Stale(s, a, b, r)
    ensures CanSettle(nodes, s, states, steps) && !NoGhosts(states[|steps|])
    decreases Ends(s)
  {
    states, steps := [s], [];
    if e :| Pending(s, e) {
      var s' := AcceptKeepsStale(nodes, s, e, a, b, r);
      states, steps := GhostRemains(nodes, s', a, b, r);
      OneMore(nodes, s, Accept(e), s', states, steps);
      states, steps := [s] + states, [Accept(e)] + steps;
    } else if e :| e in s.open {
      var step, s' := CloseKeepsStale(nodes, s, e, a, b, r);
      states, steps := GhostRemains(nodes, s', a, b, r);
      OneMore(nodes, s, step, s', states, steps);
      states, steps := [s] + states, [step] + steps;
    } else {
      assert s.open == {};
      StaleIsGhost(nodes, s, a, b, r);
    }
  }

  lemma HarmlessHasNoGhosts(nodes: set<NodeId>, s: Net, step: Step, s': Net, states: seq<Net>, steps: seq<Step>)
    requires SoleInv(nodes, s) && Synchronized(s) && Next(nodes, s, step, s') && KeepsSole(s, step) && Harmless(s, step)
    requires CanSettle(nodes, s', states, steps)
    ensures NoGhosts(states[|steps|])
  {
    SoleInvKept(nodes, s, step, s');
    SoleIsOrderly(nodes, s, step, s');
    SynchronizedExactlyWhen(nodes, s, step, s');
    SoleStepsKeep(nodes, states, steps, |steps|);
    SettledHasNoGhosts(nodes, states[|steps|]);
  }

  // A step is harmless exactly when, whatever the network does afterwards, no ghost route is left once it is quiet.
  lemma NoGhostsExactlyWhen(nodes: set<NodeId>, s: Net, step: Step, s': Net)
    requires SoleInv(nodes, s) && Synchronized(s) && Next(nodes, s, step, s') && KeepsSole(s, step)
    ensures Harmless(s, step) <==>
            forall states, steps :: CanSettle(nodes, s', states, steps) ==> NoGhosts(states[|steps|])
  {
    if Harmless(s, step) {
      forall states, steps | CanSettle(nodes, s', states, steps) ensures NoGhosts(states[|steps|]) {
        HarmlessHasNoGhosts(nodes, s, step, s', states, steps);
      }
    } else {
      var a, b, r := NotHarmless(nodes, s, step, s');
      NextKeeps(nodes, s, step, s');
      var states, steps := GhostRemains(nodes, s', a, b, r);
    }
  }

  const LEARNT := SelfWithdrawal.S4
  const LEFT := LEARNT.(open := {SelfWithdrawal.E12})
  const ALONE := LEFT.(open := {}, inboxes := LEFT.inboxes[SelfWithdrawal.E12 := []])

  lemma Node2Leaves()
    ensures LeaveStep(LEARNT, 2, false, LEFT)
  {
  }

  lemma Node1Closes()
    ensures CloseStep(LEFT, SelfWithdrawal.E12, [], ALONE)
  {
  }

  lemma AloneWithGhost()
    ensures Quiet(ALONE) && Best(Tab(ALONE, 2), 1) == Some(BestPath(1, []))
    ensures !exists w :: IsWalk(ALONE, w, 2, 1)
  {
    forall w ensures !IsWalk(ALONE, w, 2, 1) {
      if IsWalk(ALONE, w, 2, 1) {
        WalkNeedsLink(ALONE, w, 2, 1);
      }
    }
  }

  // Node 2 has learnt of node 1 and leaves the ring, and is then in a ring alone; node 1 closes its end.  Nothing is in
  // flight and no connection is open, but node 2 still has a path to node 1.
  lemma GhostRoute() returns (states: seq<Net>, steps: seq<Step>)
    ensures Run(SelfWithdrawal.NODES, states, steps)
    ensures Quiet(states[|steps|]) && Best(Tab(states[|steps|], 2), 1) == Some(BestPath(1, []))
    ensures !exists w :: IsWalk(states[|steps|], w, 2, 1)
  {
    states, steps := SelfWithdrawal.FirstLink();
    Node2Leaves();
    states, steps := SelfWithdrawal.Extend(states, steps, Leave(2, false), LEFT);
    Node1Closes();
    states, steps := SelfWithdrawal.Extend(states, steps, Close(SelfWithdrawal.E12, []), ALONE);
    AloneWithGhost();
  }
}
