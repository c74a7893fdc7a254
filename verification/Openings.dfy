/** Opening connections, any number between the same nodes, never gets two nodes out of step: as long as none is closed
    every step is orderly. */
module Openings {
  import opened Nodes
  import opened Wrappers
  import opened RoutingSpec
  import opened Network
  import opened LoopFreedom
  import opened Synchronization
  import opened Columns
  import opened Convergence

  predicate ClosesNothing(step: Step) {
    !step.Close? && !step.Drop? && !step.Leave?
  }

  // The other end is open, or has still to accept the connection and has written nothing.
  predicate Alive(s: Net, f: End) {
    Readable(s, f) ==> Attended(s, f) || (Pending(s, Other(f)) && Inbox(s, f) == [])
  }

  ghost predicate OpenInv(nodes: set<NodeId>, s: Net) {
    && LoopFree(nodes, s) && ColumnsConnected(s) && (forall f :: Alive(s, f))
    && (forall n, r, u :: Entry(Tab(s, n), r, u).Some? ==> Linked(s, u, n))
  }

  // The ends of the connection that a step opens.
  predicate Opened(step: Step, f: End) {
    match step
    case Connect(e, _) => f == e || f == Other(e)
    case GreetBack(_, e, _) => f == e || f == Other(e)
    case _ => false
  }

  lemma ReadableBefore(nodes: set<NodeId>, s: Net, step: Step, s': Net, f: End)
    requires LoopFree(nodes, s) && Next(nodes, s, step, s') && ClosesNothing(step) && !Opened(step, f)
    ensures Readable(s', f) <==> Readable(s, f)
    ensures Attended(s, f) ==> Attended(s', f)
  {
    assert GoodInbox(nodes, s, f);
    match step {
      case Greet(e, out) => assert GoodInbox(nodes, s, e);
      case GreetBack(e, _, out) => assert GoodInbox(nodes, s, e);
      case Deliver(e, changed) => assert GoodInbox(nodes, s, e);
      case _ =>
    }
  }

  lemma LinkStays(nodes: set<NodeId>, s: Net, step: Step, s': Net, u: NodeId, n: NodeId)
    requires LoopFree(nodes, s) && Next(nodes, s, step, s') && ClosesNothing(step) && Linked(s, u, n)
    ensures Linked(s', u, n)
  {
    var f :| Joins(f, u, n) && Readable(s, f) && Attended(s, f);
    assert !Opened(step, f);
    ReadableBefore(nodes, s, step, s', f);
  }

  // Nothing is written for an end whose other end is not open.
  lemma NothingWritten(nodes: set<NodeId>, s: Net, step: Step, s': Net, f: End)
    requires LoopFree(nodes, s) && Next(nodes, s, step, s') && ClosesNothing(step) && !Opened(step, f)
    requires !Attended(s, f) && Inbox(s, f) == []
    ensures Inbox(s', f) == []
  {
  }

  lemma AliveKept(nodes: set<NodeId>, s: Net, step: Step, s': Net, f: End)
    requires OpenInv(nodes, s) && Next(nodes, s, step, s') && ClosesNothing(step)
    ensures Alive(s', f)
  {
    if !Opened(step, f) {
      assert Alive(s, f);
      ReadableBefore(nodes, s, step, s', f);
      if Readable(s, f) && !Attended(s, f) {
        NothingWritten(nodes, s, step, s', f);
        assert !Opened(step, Other(f));
        ReadableBefore(nodes, s, step, s', Other(f));
      }
    }
  }

  lemma EntryIsLinked(nodes: set<NodeId>, s: Net, step: Step, s': Net, n: NodeId, r: NodeId, u: NodeId)
    requires OpenInv(nodes, s) && Next(nodes, s, step, s') && ClosesNothing(step) && Entry(Tab(s', n), r, u).Some?
    ensures Linked(s, u, n)
  {
    if step.Deliver? && Joins(step.e, u, n) {
      assert Alive(s, step.e) && GoodInbox(nodes, s, step.e);
    } else if step.Deliver? && step.e.node == n {
      DeliverKeepsTable(nodes, s, step.e, step.changed, s');
      DeliveredEntry(nodes, s, step.e, step.changed, s', r, u);
    }
  }

  lemma OpenInvKept(nodes: set<NodeId>, s: Net, step: Step, s': Net)
    requires OpenInv(nodes, s) && Next(nodes, s, step, s') && ClosesNothing(step)
    ensures OpenInv(nodes, s')
  {
    NextKeeps(nodes, s, step, s');
    HarmlessKeeps(nodes, s, step, s');
    forall f ensures Alive(s', f) {
      AliveKept(nodes, s, step, s', f);
    }
    forall n, r, u | Entry(Tab(s', n), r, u).Some? ensures Linked(s', u, n) {
      EntryIsLinked(nodes, s, step, s', n, r, u);
      LinkStays(nodes, s, step, s', u, n);
    }
  }

  // What a new connection says first is what its opener uses now.
  lemma OpenedSaysDue(nodes: set<NodeId>, s: Net, step: Step, s': Net, f: End, r: NodeId)
    requires LoopFree(nodes, s) && Next(nodes, s, step, s') && Opened(step, f)
    ensures SaysDue(s', f, r)
    ensures Attended(s', f) && !Mentions(s', f, r) ==> Payload(f.peer, Tab(s', f.peer), r).None?
  {
    assert GoodInbox(nodes, s, step.e);
    if f.peer == step.e.node {
      DumpedWord(f.peer, Tab(s, f.peer), [Hello], step.out, r);
      assert LastWord([Hello], r).None? by {
        assert [Hello][..0] == [];
      }
    }
  }

  lemma NewLinkIsDue(nodes: set<NodeId>, s: Net, step: Step, s': Net, u: NodeId, n: NodeId, r: NodeId)
    requires OpenInv(nodes, s) && Next(nodes, s, step, s') && ClosesNothing(step) && !Linked(s, u, n)
    requires Unmentioned(s', u, n, r)
    ensures EntryDue(s', u, n, r)
  {
    if Entry(Tab(s', n), r, u).Some? {
      EntryIsLinked(nodes, s, step, s', n, r, u);
    }
    if Dumped(s', u, n) {
      var f :| Joins(f, u, n) && Readable(s', f) && Introduced(s', Other(f));
      if Opened(step, f) {
        OpenedSaysDue(nodes, s, step, s', f, r);
      } else {
        assert Alive(s, f);
        ReadableBefore(nodes, s, step, s', f);
        assert false;
      }
    }
  }

  lemma OpeningIsOrderly(nodes: set<NodeId>, s: Net, step: Step, s': Net)
    requires OpenInv(nodes, s) && Synchronized(s) && Next(nodes, s, step, s') && ClosesNothing(step)
    ensures Orderly(s, s')
  {
    forall u, n, r | r != n && Linked(s', u, n) ensures OrderlyFor(s, s', u, n, r) {
      if step.Deliver? && Joins(step.e, u, n) {
        assert Alive(s, step.e) && Linked(s, u, n);
        ReadInStep(nodes, s, step.e, step.changed, s', r);
      } else {
        OrderlyElsewhere(nodes, s, step, s', u, n, r);
      }
    }
  }

  lemma OrderlyElsewhere(nodes: set<NodeId>, s: Net, step: Step, s': Net, u: NodeId, n: NodeId, r: NodeId)
    requires OpenInv(nodes, s) && Next(nodes, s, step, s') && ClosesNothing(step) && r != n && Linked(s', u, n)
    requires !(step.Deliver? && Joins(step.e, u, n))
    ensures OrderlyFor(s, s', u, n, r)
  {
    forall f | Joins(f, u, n) && !(Attended(s, f) && Attended(s', f)) ensures SaysDue(s', f, r) {
      assert Alive(s, f);
      if Opened(step, f) {
        OpenedSaysDue(nodes, s, step, s', f, r);
      } else {
        ReadableBefore(nodes, s, step, s', f);
        if Readable(s, f) {
          NothingWritten(nodes, s, step, s', f);
        }
      }
    }
    forall f | Joins(f, u, n) && Mentions(s, f, r) ensures Readable(s', f) {
      if !Opened(step, f) {
        ReadableBefore(nodes, s, step, s', f);
      }
    }
    SameEntry(nodes, s, step, s', n, r, u);
    if !Linked(s, u, n) && Unmentioned(s', u, n, r) {
      NewLinkIsDue(nodes, s, step, s', u, n, r);
    }
  }

  lemma SameEntry(nodes: set<NodeId>, s: Net, step: Step, s': Net, n: NodeId, r: NodeId, u: NodeId)
    requires LoopFree(nodes, s) && Next(nodes, s, step, s') && ClosesNothing(step) && r != n
    requires !(step.Deliver? && Joins(step.e, u, n))
    ensures Entry(Tab(s', n), r, u) == Entry(Tab(s, n), r, u)
  {
    if step.Deliver? && step.e.node == n {
      DeliveredEntry(nodes, s, step.e, step.changed, s', r, u);
    }
  }

  ghost predicate OpensAt(steps: seq<Step>, i: nat)
    requires i < |steps|
  {
    ClosesNothing(steps[i])
  }

  lemma OpeningStep(nodes: set<NodeId>, states: seq<Net>, steps: seq<Step>, i: nat)
    requires Steps(nodes, states, steps) && i < |steps| && OpensAt(steps, i)
    requires OpenInv(nodes, states[i]) && SynchronizedAt(states, i)
    ensures OpenInv(nodes, states[i + 1]) && SynchronizedAt(states, i + 1)
  {
    assert StepAt(nodes, states, steps, i);
    OpenInvKept(nodes, states[i], steps[i], states[i + 1]);
    OpeningIsOrderly(nodes, states[i], steps[i], states[i + 1]);
    OrderlyStep(nodes, states, steps, i);
  }

  lemma {:induction false} OpeningsKeep(nodes: set<NodeId>, states: seq<Net>, steps: seq<Step>, i: nat)
    requires Run(nodes, states, steps) && i < |states| && forall k :: 0 <= k < i ==> OpensAt(steps, k)
    ensures OpenInv(nodes, states[i]) && SynchronizedAt(states, i)
  {
    if i == 0 {
      InitIsLoopFree(nodes, states[0]);
    } else {
      OpeningsKeep(nodes, states, steps, i - 1);
      OpeningStep(nodes, states, steps, i - 1);
    }
  }

  // Whatever connections there are between the same nodes, a run in which none is closed is synchronised throughout,
  // and when nothing is in flight all best paths are shortest walks.
  lemma OpeningRunConverges(nodes: set<NodeId>, states: seq<Net>, steps: seq<Step>, i: nat, n: NodeId, r: NodeId)
    requires Run(nodes, states, steps) && i < |states| && n != r && forall k :: 0 <= k < i ==> OpensAt(steps, k)
    ensures Synchronized(states[i])
    ensures Quiet(states[i]) ==> (Best(Tab(states[i], n), r).Some? <==> exists w :: IsWalk(states[i], w, n, r))
    ensures Quiet(states[i]) && Best(Tab(states[i], n), r).Some? ==>
              && IsWalk(states[i], [n] + Best(Tab(states[i], n), r).value.path + [r], n, r)
              && forall w :: IsWalk(states[i], w, n, r) ==> |Best(Tab(states[i], n), r).value.path| <= |w| - 2
  {
    OpeningsKeep(nodes, states, steps, i);
    if Quiet(states[i]) {
      QuietMeansShortest(nodes, states[i], n, r);
    }
  }
}
