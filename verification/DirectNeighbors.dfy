/** Once a node has read `ROUTE u u u` from `u` its path to `u` is a connection itself, until it closes the last one. */
module DirectNeighbors {
  import opened Nodes
  import opened Wrappers
  import opened RoutingSpec
  import opened Network
  import opened LoopFreedom
  import opened Synchronization

  // `n` has read that `u` is the node at the other end.
  predicate Knows(s: Net, n: NodeId, u: NodeId) {
    Entry(Tab(s, n), u, u).Some?
  }

  // The step in which `n` removes the column of `u`, or its whole table.
  ghost predicate Forgets(s: Net, step: Step, n: NodeId, u: NodeId) {
    match step
    case Close(e, _) => Joins(e, u, n) && Introduced(s, e) && !KnownOtherwise(s, e)
    case Leave(m, cleared) => m == n && cleared
    case _ => false
  }

  lemma KnownIsChosen(nodes: set<NodeId>, s: Net, n: NodeId, u: NodeId)
    requires LoopFree(nodes, s) && Knows(s, n, u)
    ensures Best(Tab(s, n), u) == Some(BestPath(u, []))
  {
    assert GoodEntries(nodes, n, Tab(s, n)) && TableInv(Tab(s, n));
  }

  // What node `n` broadcasts in a step.
  function Broadcast(s: Net, step: Step, s': Net, n: NodeId): seq<Announcement> {
    match step
    case Deliver(e, changed) =>
      if e.node == n && Inbox(s, e) != [] && Inbox(s, e)[0].RouteMsg?
      then Reaction(n, Tab(s', n), Inbox(s, e)[0].a.recipient, changed) else []
    case Close(e, out) => if e.node == n then out else []
    case _ => []
  }

  lemma BroadcastsChanges(nodes: set<NodeId>, s: Net, step: Step, s': Net, n: NodeId)
    requires LoopFree(nodes, s) && Next(nodes, s, step, s') && step != Leave(n, true)
    ensures AnnouncesChanges(n, Tab(s, n), Tab(s', n), Broadcast(s, step, s', n))
  {
    if step.Deliver? && step.e.node == n {
      ReactionAnnouncesChanges(nodes, s, step.e, step.changed, s');
    } else if !(step.Close? && step.e.node == n) {
      assert Tab(s', n) == Tab(s, n);
    }
  }

  lemma KnownStays(nodes: set<NodeId>, s: Net, step: Step, s': Net, n: NodeId, u: NodeId)
    requires LoopFree(nodes, s) && Next(nodes, s, step, s') && Knows(s, n, u) && !Forgets(s, step, n, u)
    ensures Knows(s', n, u)
  {
    assert GoodEntries(nodes, n, Tab(s, n));
    if step.Deliver? && step.e.node == n {
      DeliveredEntry(nodes, s, step.e, step.changed, s', u, u);
      assert GoodInbox(nodes, s, step.e) && RouteMsg(Inbox(s, step.e)[0].a) in Inbox(s, step.e);
    }
  }

  // The best path to a known neighbour is the direct one; it is neither changed nor announced again by any step but
  // that which removes the column.
  lemma KnownNeighborIsStable(nodes: set<NodeId>, s: Net, step: Step, s': Net, n: NodeId, u: NodeId)
    requires LoopFree(nodes, s) && Next(nodes, s, step, s') && Knows(s, n, u) && !Forgets(s, step, n, u)
    ensures Knows(s', n, u)
    ensures Best(Tab(s, n), u) == Best(Tab(s', n), u) == Some(BestPath(u, []))
    ensures forall a :: a in Broadcast(s, step, s', n) ==> a.recipient != u
  {
    KnownStays(nodes, s, step, s', n, u);
    NextKeeps(nodes, s, step, s');
    KnownIsChosen(nodes, s, n, u);
    KnownIsChosen(nodes, s', n, u);
    BroadcastsChanges(nodes, s, step, s', n);
    var out := Broadcast(s, step, s', n);
    assert Announcement(u, Payload(n, Tab(s', n), u)) !in out;
  }

  ghost predicate ForgetsAt(states: seq<Net>, steps: seq<Step>, i: nat, n: NodeId, u: NodeId)
    requires |states| == |steps| + 1 && i < |steps|
  {
    Forgets(states[i], steps[i], n, u)
  }

  lemma KnownNeighborStep(nodes: set<NodeId>, states: seq<Net>, steps: seq<Step>, n: NodeId, u: NodeId, j: nat)
    requires Run(nodes, states, steps) && j < |steps| && Knows(states[j], n, u) && !ForgetsAt(states, steps, j, n, u)
    ensures Knows(states[j + 1], n, u)
  {
    RunIsLoopFree(nodes, states, steps, j);
    assert StepAt(nodes, states, steps, j);
    KnownNeighborIsStable(nodes, states[j], steps[j], states[j + 1], n, u);
  }

  // Over a whole run: from the state where `n` knows `u` on, until `n` removes the column.
  lemma {:induction false} KnownNeighborForTheRun(nodes: set<NodeId>, states: seq<Net>, steps: seq<Step>, n: NodeId,
                                                  u: NodeId, i: nat, j: nat)
    requires Run(nodes, states, steps) && i <= j < |states| && Knows(states[i], n, u)
    requires forall k :: i <= k < j ==> !ForgetsAt(states, steps, k, n, u)
    ensures Knows(states[j], n, u) && Best(Tab(states[j], n), u) == Some(BestPath(u, []))
    decreases j - i
  {
    RunIsLoopFree(nodes, states, steps, j);
    if i < j {
      KnownNeighborForTheRun(nodes, states, steps, n, u, i, j - 1);
      KnownNeighborStep(nodes, states, steps, n, u, j - 1);
    }
    KnownIsChosen(nodes, states[j], n, u);
  }

  // Everything node `n` writes in a step.
  function Written(s: Net, step: Step, s': Net, n: NodeId): seq<Announcement> {
    match step
    case Connect(e, out) => if e.node == n then out else []
    case Greet(e, out) => if e.node == n then out else []
    case GreetBack(e, _, out) => if e.node == n then out else []
    case _ => Broadcast(s, step, s', n)
  }

  // All that table `t` holds for `u` came from neighbour `v`.
  ghost predicate OnlyThrough(t: Table, u: NodeId, v: NodeId) {
    Entry(t, u, v).Some? && forall w :: Entry(t, u, w).Some? ==> w == v
  }

  // When node `n` tells others in a step that it has no path to `u`: it closes the last connection to the only
  // neighbour it had a path from, or reads from that neighbour that there is none, or one through `n`.
  ghost predicate Withdraws(s: Net, step: Step, n: NodeId, u: NodeId) {
    match step
    case Close(e, _) =>
      e.node == n && Introduced(s, e) && !KnownOtherwise(s, e) && OnlyThrough(Tab(s, n), u, e.peer)
    case Deliver(e, _) =>
      && e.node == n && Inbox(s, e) != [] && Inbox(s, e)[0].RouteMsg?
      && Inbox(s, e)[0].a.recipient == u && Clean(n, Inbox(s, e)[0].a.path).None?
      && OnlyThrough(Tab(s, n), u, e.peer)
    case _ => false
  }

  lemma RemovalWithdraws(nodes: set<NodeId>, n: NodeId, t: Table, v: NodeId, t': Table, out: seq<Announcement>,
                         u: NodeId)
    requires TableInv(t) && GoodEntries(nodes, n, t) && Removal(n, t, v, t', out)
    ensures Announcement(u, None) in out <==> OnlyThrough(t, u, v)
  {
    assert Selected(t, Chosen(t, u), u) && Selected(t', Chosen(t, u), u);
    assert Payload(n, t', u).None? <==> u != n && Best(t', u).None?;
  }

  lemma CloseWithdraws(nodes: set<NodeId>, s: Net, e: End, out: seq<Announcement>, s': Net, u: NodeId)
    requires LoopFree(nodes, s) && CloseStep(s, e, out, s')
    ensures Announcement(u, None) in out <==> Withdraws(s, Close(e, out), e.node, u)
  {
    if Introduced(s, e) && !KnownOtherwise(s, e) {
      assert TableInv(Tab(s, e.node)) && GoodEntries(nodes, e.node, Tab(s, e.node));
      RemovalWithdraws(nodes, e.node, Tab(s, e.node), e.peer, Tab(s', e.node), out, u);
    }
  }

  lemma UpdateWithdraws(n: NodeId, t: Table, u: NodeId, r: NodeId, p: Option<Path>, t': Table, changed: bool)
    requires TableInv(t) && Update(n, t, u, r, p, t', changed) && r != n && u != n
    ensures changed && Payload(n, t', r).None? <==> Clean(n, p).None? && OnlyThrough(t, r, u)
  {
    assert Selected(t, Chosen(t, r), r) && Selected(t', Chosen(t, r), r);
    assert Entry(t', r, u) == Clean(n, p) && forall w :: w != u ==> Entry(t', r, w) == Entry(t, r, w);
  }

  lemma DeliveryWithdraws(nodes: set<NodeId>, s: Net, e: End, changed: bool, s': Net, u: NodeId)
    requires LoopFree(nodes, s) && DeliverStep(s, e, changed, s')
    ensures Announcement(u, None) in Broadcast(s, Deliver(e, changed), s', e.node) <==>
            Withdraws(s, Deliver(e, changed), e.node, u)
  {
    var a, n := Inbox(s, e)[0].a, e.node;
    assert GoodInbox(nodes, s, e) && RouteMsg(a) in Inbox(s, e) && GoodEnd(nodes, e);
    assert GoodEntries(nodes, n, Tab(s, n)) && TableInv(Tab(s, n));
    if a.recipient != n {
      UpdateWithdraws(n, Tab(s, n), e.peer, a.recipient, a.path, Tab(s', n), changed);
    }
  }

  // A node says that it has no path to `u` in exactly these steps.
  lemma WithdrawnExactlyWhen(nodes: set<NodeId>, s: Net, step: Step, s': Net, n: NodeId, u: NodeId)
    requires LoopFree(nodes, s) && Next(nodes, s, step, s')
    ensures Announcement(u, None) in Written(s, step, s', n) <==> Withdraws(s, step, n, u)
  {
    match step {
      case Close(e, out) =>
        if e.node == n {
          CloseWithdraws(nodes, s, e, out, s', u);
        }
      case Deliver(e, changed) =>
        if e.node == n {
          DeliveryWithdraws(nodes, s, e, changed, s', u);
        }
      case _ =>
    }
  }
}
