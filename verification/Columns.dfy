/** Whether a node holds paths only from neighbours it is connected to.

    Two places of the code close connections and leave the column of the neighbour in the routing table.  A node whose
    predecessor is replaced by a PRED message does so with the old connection (ring.c:456-459), and a node that leaves
    the ring with all connections (ring.c:80-92); join_ring clears the table, but a direct join to itself does not
    (main.c:118-125). */
module Columns {
  import opened Nodes
  import opened Wrappers
  import opened RoutingSpec
  import opened Network
  import opened LoopFreedom

  ghost predicate Connected(s: Net, n: NodeId, u: NodeId) {
    exists f :: Joins(f, u, n) && Introduced(s, f)
  }

  ghost predicate ColumnsConnected(s: Net) {
    forall n, r, u :: Entry(Tab(s, n), r, u).Some? ==> Connected(s, n, u)
  }

  // The guard a caller can check: a connection that is closed without removal is not the last one to a known node, or
  // has no path in the table.
  ghost predicate Harmless(s: Net, step: Step) {
    match step
    case Drop(e) => KnownOtherwise(s, e) || !Introduced(s, e) || forall r :: Entry(Tab(s, e.node), r, e.peer).None?
    case Leave(n, cleared) => cleared || forall r, u :: Entry(Tab(s, n), r, u).None?
    case _ => true
  }

  lemma StaysIntroduced(nodes: set<NodeId>, s: Net, step: Step, s': Net, f: End)
    requires LoopFree(nodes, s) && Next(nodes, s, step, s') && Introduced(s, f) && f in s'.open
    ensures Introduced(s', f)
  {
    match step {
      case Deliver(e, changed) =>
        assert GoodInbox(nodes, s, e);
        if f == e {
          ReadKeepsInbox(nodes, s, e, s');
        }
      case _ =>
    }
  }

  lemma CloseKeepsColumns(nodes: set<NodeId>, s: Net, e: End, out: seq<Announcement>, s': Net, n: NodeId, r: NodeId,
                          u: NodeId)
    requires LoopFree(nodes, s) && ColumnsConnected(s) && CloseStep(s, e, out, s') && Entry(Tab(s', n), r, u).Some?
    ensures Connected(s', n, u)
  {
    assert Entry(Tab(s, n), r, u).Some?;
    var f :| Joins(f, u, n) && Introduced(s, f);
    if f == e {
      var g :| g != e && SameNodes(e, g) && Introduced(s, g);
      StaysIntroduced(nodes, s, Close(e, out), s', g);
    } else {
      StaysIntroduced(nodes, s, Close(e, out), s', f);
    }
  }

  lemma DeliverKeepsColumns(nodes: set<NodeId>, s: Net, e: End, changed: bool, s': Net, n: NodeId, r: NodeId, u: NodeId)
    requires LoopFree(nodes, s) && ColumnsConnected(s) && DeliverStep(s, e, changed, s')
             && Entry(Tab(s', n), r, u).Some?
    ensures Connected(s', n, u)
  {
    if n == e.node && u == e.peer {
      StaysIntroduced(nodes, s, Deliver(e, changed), s', e);
    } else {
      assert GoodInbox(nodes, s, e) && RouteMsg(Inbox(s, e)[0].a) in Inbox(s, e) && GoodEnd(nodes, e);
      assert Entry(Tab(s, n), r, u).Some?;
      var f :| Joins(f, u, n) && Introduced(s, f);
      StaysIntroduced(nodes, s, Deliver(e, changed), s', f);
    }
  }

  lemma DropKeepsColumns(nodes: set<NodeId>, s: Net, step: Step, s': Net, n: NodeId, r: NodeId, u: NodeId)
    requires LoopFree(nodes, s) && ColumnsConnected(s) && Next(nodes, s, step, s') && Harmless(s, step)
    requires !step.Close? && !step.Deliver? && Entry(Tab(s', n), r, u).Some?
    ensures Connected(s', n, u)
  {
    assert Entry(Tab(s, n), r, u).Some?;
    var f :| Joins(f, u, n) && Introduced(s, f);
    if step == Drop(f) {
      var g :| g != f && SameNodes(f, g) && Introduced(s, g);
      StaysIntroduced(nodes, s, step, s', g);
    } else {
      StaysIntroduced(nodes, s, step, s', f);
    }
  }

  lemma HarmlessKeeps(nodes: set<NodeId>, s: Net, step: Step, s': Net)
    requires LoopFree(nodes, s) && ColumnsConnected(s) && Next(nodes, s, step, s') && Harmless(s, step)
    ensures ColumnsConnected(s')
  {
    forall n, r, u | Entry(Tab(s', n), r, u).Some? ensures Connected(s', n, u) {
      match step {
        case Close(e, out) => CloseKeepsColumns(nodes, s, e, out, s', n, r, u);
        case Deliver(e, changed) => DeliverKeepsColumns(nodes, s, e, changed, s', n, r, u);
        case _ => DropKeepsColumns(nodes, s, step, s', n, r, u);
      }
    }
  }

  // A step leaves no column without a connection exactly when it is harmless.
  lemma HarmlessExactlyWhen(nodes: set<NodeId>, s: Net, step: Step, s': Net)
    requires LoopFree(nodes, s) && ColumnsConnected(s) && Next(nodes, s, step, s')
    ensures ColumnsConnected(s') <==> Harmless(s, step)
  {
    if Harmless(s, step) {
      HarmlessKeeps(nodes, s, step, s');
    } else {
      var a, b, r := NotHarmless(nodes, s, step, s');
    }
  }

  // Node `a` has a path to `r` from `b`, and does not know of any connection to `b`.
  ghost predicate Stale(s: Net, a: NodeId, b: NodeId, r: NodeId) {
    Entry(Tab(s, a), r, b).Some? && !Connected(s, a, b)
  }

  lemma NotHarmless(nodes: set<NodeId>, s: Net, step: Step, s': Net) returns (a: NodeId, b: NodeId, r: NodeId)
    requires Next(nodes, s, step, s') && !Harmless(s, step)
    ensures Stale(s', a, b, r)
    ensures step.Drop? ==> a == step.e.node && b == step.e.peer
    ensures step.Leave? ==> a == step.n
  {
    match step {
      case Drop(e) =>
        a, b := e.node, e.peer;
        r :| Entry(Tab(s, a), r, b).Some?;
        forall f | Joins(f, b, a) ensures !Introduced(s', f) {
          assert f != e && Introduced(s', f) ==> SameNodes(e, f) && Introduced(s, f);
        }
      case Leave(n, _) =>
        a := n;
        r, b :| Entry(Tab(s, a), r, b).Some?;
    }
  }

  ghost predicate HarmlessAt(states: seq<Net>, steps: seq<Step>, i: nat)
    requires |states| == |steps| + 1 && i < |steps|
  {
    Harmless(states[i], steps[i])
  }

  lemma HarmlessStep(nodes: set<NodeId>, states: seq<Net>, steps: seq<Step>, i: nat)
    requires Steps(nodes, states, steps) && i < |steps| && HarmlessAt(states, steps, i)
    requires LoopFree(nodes, states[i]) && ColumnsConnected(states[i])
    ensures ColumnsConnected(states[i + 1])
  {
    assert StepAt(nodes, states, steps, i);
    HarmlessKeeps(nodes, states[i], steps[i], states[i + 1]);
  }

  lemma {:induction false} StepsKeepColumns(nodes: set<NodeId>, states: seq<Net>, steps: seq<Step>, i: nat)
    requires Steps(nodes, states, steps) && LoopFree(nodes, states[0]) && ColumnsConnected(states[0]) && i < |states|
    requires forall k :: 0 <= k < i ==> HarmlessAt(states, steps, k)
    ensures ColumnsConnected(states[i])
  {
    if i > 0 {
      StepsKeepColumns(nodes, states, steps, i - 1);
      StepsKeepLoopFree(nodes, states, steps, i - 1);
      HarmlessStep(nodes, states, steps, i - 1);
    }
  }
}
