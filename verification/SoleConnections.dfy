/** As long as no two nodes have more than one connection at a time all steps are orderly. */
module SoleConnections {
  import opened Nodes
  import opened Wrappers
  import opened RoutingSpec
  import opened Network
  import opened LoopFreedom
  import opened Synchronization
  import opened Columns
  import opened Convergence

  predicate SamePair(f: End, g: End) {
    SameNodes(f, g) || SameNodes(f, Other(g))
  }

  // Two nodes have no two connections of which some end is in use.
  ghost predicate Sole(s: Net) {
    forall f, g :: InUse(s, f) && InUse(s, g) && SamePair(f, g) ==> f.k == g.k
  }

  // Nothing has come back on a connection that has not been accepted.
  ghost predicate NothingBack(s: Net, f: End) {
    Pending(s, f) ==>
      && Inbox(s, Other(f)) == []
      && (Other(f) in s.open ==> forall r :: Entry(Tab(s, f.peer), r, f.node).None?)
  }

  ghost predicate SoleInv(nodes: set<NodeId>, s: Net) {
    LoopFree(nodes, s) && ColumnsConnected(s) && Sole(s) && forall f :: NothingBack(s, f)
  }

  // No connection is opened as long as one between the same nodes is in use.
  ghost predicate KeepsSole(s: Net, step: Step) {
    && !step.GreetBack?
    && (step.Connect? ==> forall f :: SamePair(f, step.e) ==> !InUse(s, f))
  }

  lemma InUseBefore(s: Net, nodes: set<NodeId>, step: Step, s': Net, f: End)
    requires LoopFree(nodes, s) && Next(nodes, s, step, s') && Readable(s', f) && !step.GreetBack?
             && !(step.Connect? && f in {step.e, Other(step.e)})
    ensures Readable(s, f)
  {
    match step {
      case Greet(e, out) => assert GoodInbox(nodes, s, f) && GoodInbox(nodes, s, e);
      case Deliver(e, changed) => assert GoodInbox(nodes, s, f) && GoodInbox(nodes, s, e);
      case _ =>
    }
  }

  lemma SoleKept(nodes: set<NodeId>, s: Net, step: Step, s': Net)
    requires SoleInv(nodes, s) && Next(nodes, s, step, s') && KeepsSole(s, step)
    ensures Sole(s')
  {
    forall f, g | InUse(s', f) && InUse(s', g) && SamePair(f, g) ensures f.k == g.k {
      forall h | h in [f, Other(f), g, Other(g)] && Readable(s', h)
        ensures InUse(s, h) || (step.Connect? && h in {step.e, Other(step.e)})
      {
        if !(step.Connect? && h in {step.e, Other(step.e)}) {
          InUseBefore(s, nodes, step, s', h);
        }
      }
    }
  }

  lemma NoColumnBefore(nodes: set<NodeId>, s: Net, e: End, r: NodeId)
    requires SoleInv(nodes, s) && forall f :: SamePair(f, e) ==> !InUse(s, f)
    ensures Entry(Tab(s, e.node), r, e.peer).None?
  {
    forall g | Joins(g, e.peer, e.node) ensures !Introduced(s, g) {
      assert SamePair(g, e) && !InUse(s, g);
    }
  }

  lemma NothingRead(nodes: set<NodeId>, s: Net, e: End, changed: bool, s': Net, f: End, r: NodeId)
    requires SoleInv(nodes, s) && DeliverStep(s, e, changed, s') && Pending(s, f) && Other(f) in s.open
    ensures Entry(Tab(s', f.peer), r, f.node).None?
  {
    assert NothingBack(s, f) && GoodEnd(nodes, e) && GoodInbox(nodes, s, e)
           && RouteMsg(Inbox(s, e)[0].a) in Inbox(s, e);
    assert e != Other(f) && InUse(s, e) && InUse(s, f);
    assert !Joins(e, f.node, f.peer) by {
      assert SamePair(e, f) ==> e.k == f.k;
    }
  }

  lemma NothingBackKept(nodes: set<NodeId>, s: Net, step: Step, s': Net, f: End)
    requires SoleInv(nodes, s) && Next(nodes, s, step, s') && KeepsSole(s, step)
    ensures NothingBack(s', f)
  {
    if Pending(s', f) {
      if step.Connect? && f == Other(step.e) {
        forall r ensures Entry(Tab(s', f.peer), r, f.node).None? {
          NoColumnBefore(nodes, s, step.e, r);
        }
      } else {
        InUseBefore(s, nodes, step, s', f);
        assert NothingBack(s, f);
        match step {
          case Deliver(e, changed) =>
            assert GoodEnd(nodes, e);
            if Other(f) in s.open {
              forall r ensures Entry(Tab(s', f.peer), r, f.node).None? {
                NothingRead(nodes, s, e, changed, s', f, r);
              }
            }
          case _ =>
        }
      }
    }
  }

  lemma SoleInvKept(nodes: set<NodeId>, s: Net, step: Step, s': Net)
    requires SoleInv(nodes, s) && Next(nodes, s, step, s') && KeepsSole(s, step) && Harmless(s, step)
    ensures SoleInv(nodes, s')
  {
    NextKeeps(nodes, s, step, s');
    HarmlessKeeps(nodes, s, step, s');
    SoleKept(nodes, s, step, s');
    forall f ensures NothingBack(s', f) {
      NothingBackKept(nodes, s, step, s', f);
    }
  }

  // The only connection from `u` to `n`.
  lemma OnlyOne(s: Net, f: End, g: End, u: NodeId, n: NodeId)
    requires Sole(s) && Joins(f, u, n) && Joins(g, u, n) && InUse(s, f) && InUse(s, g)
    ensures f == g
  {
    assert SamePair(f, g);
  }

  lemma NewLinkIsOrderly(nodes: set<NodeId>, s: Net, step: Step, s': Net, f: End, r: NodeId)
    requires SoleInv(nodes, s) && Next(nodes, s, step, s') && KeepsSole(s, step) && Sole(s')
    requires (step.Connect? || step.Accept?) && f == Other(step.e) && Readable(s', f) && r != f.node
    ensures OrderlyFor(s, s', f.peer, f.node, r)
  {
    var e, u, n := step.e, f.peer, f.node;
    if step.Connect? {
      DumpedWord(u, Tab(s, u), [Hello], step.out, r);
      assert [Hello][..0] == [] && LastWord([Hello], r).None?;
      NoColumnBefore(nodes, s, f, r);
    } else {
      assert NothingBack(s, e);
    }
    forall g | Joins(g, u, n) && g != f ensures !Readable(s', g) {
      if Readable(s', g) {
        OnlyOne(s', f, g, u, n);
      }
    }
  }

  lemma OldLinkIsOrderly(nodes: set<NodeId>, s: Net, step: Step, s': Net, f: End, r: NodeId)
    requires SoleInv(nodes, s) && Next(nodes, s, step, s') && KeepsSole(s, step) && Sole(s')
    requires Readable(s', f) && Attended(s', f) && Readable(s, f) && Attended(s, f) && r != f.node
    requires !(step.Deliver? && step.e == f)
    ensures OrderlyFor(s, s', f.peer, f.node, r)
  {
    var u, n := f.peer, f.node;
    forall g | Joins(g, u, n) && g != f ensures !Readable(s', g) && !Readable(s, g) {
      if Readable(s', g) {
        OnlyOne(s', f, g, u, n);
      }
      if Readable(s, g) {
        OnlyOne(s, f, g, u, n);
      }
    }
    assert Linked(s, u, n);
    SameEntry(nodes, s, step, s', f, r);
  }

  lemma SameEntry(nodes: set<NodeId>, s: Net, step: Step, s': Net, f: End, r: NodeId)
    requires SoleInv(nodes, s) && Next(nodes, s, step, s') && r != f.node
    requires Readable(s', f) && Readable(s, f) && !(step.Deliver? && step.e == f)
    ensures Entry(Tab(s', f.node), r, f.peer) == Entry(Tab(s, f.node), r, f.peer)
  {
    match step {
      case Deliver(e, changed) =>
        if e.node == f.node {
          DeliveredEntry(nodes, s, e, changed, s', r, f.peer);
          if e.peer == f.peer {
            OnlyOne(s, e, f, f.peer, f.node);
          }
        }
      case Close(e, out) =>
        if SameNodes(e, f) {
          OnlyOne(s, e, f, f.peer, f.node);
        }
      case Leave(x, _) =>
        if f.node == x && Entry(Tab(s, x), r, f.peer).Some? {
          var g :| Joins(g, f.peer, x) && Introduced(s, g);
          OnlyOne(s, f, g, f.peer, x);
        }
      case _ =>
    }
  }

  // With one connection between any two nodes every step is orderly.
  lemma SoleIsOrderly(nodes: set<NodeId>, s: Net, step: Step, s': Net)
    requires SoleInv(nodes, s) && Synchronized(s) && Next(nodes, s, step, s') && KeepsSole(s, step) && Harmless(s, step)
    ensures Orderly(s, s')
  {
    SoleInvKept(nodes, s, step, s');
    forall u, n, r | r != n && Linked(s', u, n) ensures OrderlyFor(s, s', u, n, r) {
      var f :| Joins(f, u, n) && Readable(s', f) && Attended(s', f);
      if (step.Connect? || step.Accept?) && f == Other(step.e) {
        NewLinkIsOrderly(nodes, s, step, s', f, r);
      } else if step.Deliver? && step.e == f {
        InStepExactlyWhen(nodes, s, step, s', u, n, r);
        StillLinked(nodes, s, step.e, step.changed, s');
        ReadInStep(nodes, s, step.e, step.changed, s', r);
      } else {
        InUseBefore(s, nodes, step, s', f);
        OldLinkIsOrderly(nodes, s, step, s', f, r);
      }
    }
  }

  ghost predicate SoleAt(states: seq<Net>, steps: seq<Step>, i: nat)
    requires |states| == |steps| + 1 && i < |steps|
  {
    KeepsSole(states[i], steps[i]) && Harmless(states[i], steps[i])
  }

  lemma SoleStep(nodes: set<NodeId>, states: seq<Net>, steps: seq<Step>, i: nat)
    requires Steps(nodes, states, steps) && i < |steps| && SoleAt(states, steps, i)
    requires SoleInv(nodes, states[i]) && SynchronizedAt(states, i)
    ensures SoleInv(nodes, states[i + 1]) && OrderlyAt(states, i) && SynchronizedAt(states, i + 1)
  {
    assert StepAt(nodes, states, steps, i);
    SoleInvKept(nodes, states[i], steps[i], states[i + 1]);
    SoleIsOrderly(nodes, states[i], steps[i], states[i + 1]);
    OrderlyStep(nodes, states, steps, i);
  }

  lemma {:induction false} SoleStepsKeep(nodes: set<NodeId>, states: seq<Net>, steps: seq<Step>, i: nat)
    requires Steps(nodes, states, steps) && i < |states| && SoleInv(nodes, states[0]) && SynchronizedAt(states, 0)
    requires forall k :: 0 <= k < i ==> SoleAt(states, steps, k)
    ensures SoleInv(nodes, states[i]) && SynchronizedAt(states, i)
  {
    if i > 0 {
      SoleStepsKeep(nodes, states, steps, i - 1);
      SoleStep(nodes, states, steps, i - 1);
    }
  }

  lemma InitIsSole(nodes: set<NodeId>, s: Net)
    requires Init(s)
    ensures SoleInv(nodes, s) && Synchronized(s)
  {
    InitIsLoopFree(nodes, s);
  }

  // A run in which no two nodes have two connections at a time, and columns are removed as they should be, is
  // synchronised throughout; and when nothing is in flight all best paths are shortest walks.
  lemma SoleRunConverges(nodes: set<NodeId>, states: seq<Net>, steps: seq<Step>, i: nat, n: NodeId, r: NodeId)
    requires Run(nodes, states, steps) && i < |states| && n != r
    requires forall k :: 0 <= k < i ==> SoleAt(states, steps, k)
    ensures Synchronized(states[i])
    ensures Quiet(states[i]) ==> (Best(Tab(states[i], n), r).Some? <==> exists w :: IsWalk(states[i], w, n, r))
    ensures Quiet(states[i]) && Best(Tab(states[i], n), r).Some? ==>
              && IsWalk(states[i], [n] + Best(Tab(states[i], n), r).value.path + [r], n, r)
              && forall w :: IsWalk(states[i], w, n, r) ==> |Best(Tab(states[i], n), r).value.path| <= |w| - 2
  {
    InitIsSole(nodes, states[0]);
    SoleStepsKeep(nodes, states, steps, i);
    if Quiet(states[i]) {
      QuietMeansShortest(nodes, states[i], n, r);
    }
  }
}
