/** In every run, no path that is stored or on its way ever visits a node twice, its owner or the recipient. */
module LoopFreedom {
  import opened Nodes
  import opened Wrappers
  import opened RoutingSpec
  import opened Network

  // A path to `r` as node `u` may announce it: `u` first, no node twice, not `r`; empty exactly when `u` is `r`.
  ghost predicate GoodPath(nodes: set<NodeId>, u: NodeId, r: NodeId, p: Path) {
    && u in nodes && r in nodes
    && (p == [] <==> u == r)
    && (p != [] ==> p[0] == u)
    && r !in p && NoDup(p)
    && forall x :: x in p ==> x in nodes
  }

  ghost predicate GoodEntries(nodes: set<NodeId>, n: NodeId, t: Table) {
    forall r, u :: Entry(t, r, u).Some? ==>
      n != r && n != u && n in nodes && GoodPath(nodes, u, r, Entry(t, r, u).value) && n !in Entry(t, r, u).value
  }

  ghost predicate GoodMessages(nodes: set<NodeId>, u: NodeId, q: seq<Message>) {
    forall a :: RouteMsg(a) in q ==>
      match a.path
      case None => a.recipient != u && u in nodes && a.recipient in nodes
      case Some(p) => GoodPath(nodes, u, a.recipient, p)
  }

  ghost predicate GoodEnd(nodes: set<NodeId>, e: End) {
    e.node in nodes && e.peer in nodes && e.node != e.peer
  }

  ghost predicate HelloFirst(q: seq<Message>) {
    forall i :: 0 < i < |q| ==> q[i] != Hello
  }

  // Nothing but the first message of a connection is a greeting, and what is unread is between two nodes of the
  // network.
  ghost predicate GoodInbox(nodes: set<NodeId>, s: Net, f: End) {
    && GoodMessages(nodes, f.peer, Inbox(s, f)) && HelloFirst(Inbox(s, f))
    && (Inbox(s, f) != [] && Inbox(s, f)[0] == Hello ==> GoodEnd(nodes, f))
  }

  ghost predicate LoopFree(nodes: set<NodeId>, s: Net) {
    && (forall n :: TableInv(Tab(s, n)) && GoodEntries(nodes, n, Tab(s, n)))
    && (forall f :: GoodInbox(nodes, s, f))
    && (forall e :: e in s.open ==> GoodEnd(nodes, e))
  }

  lemma PayloadIsGood(nodes: set<NodeId>, n: NodeId, t: Table, r: NodeId)
    requires n in nodes && TableInv(t) && GoodEntries(nodes, n, t)
    ensures Payload(n, t, r).Some? ==> GoodPath(nodes, n, r, Payload(n, t, r).value)
  {
  }

  lemma AnnouncementsAreGood(nodes: set<NodeId>, n: NodeId, t: Table, q: seq<Message>, out: seq<Announcement>)
    requires n in nodes && TableInv(t) && GoodEntries(nodes, n, t) && GoodMessages(nodes, n, q) && HelloFirst(q)
    requires forall a :: a in out ==> a.path == Payload(n, t, a.recipient) && (a.path.None? ==> a.recipient in nodes)
    ensures GoodMessages(nodes, n, q + Wrap(out)) && HelloFirst(q + Wrap(out))
    ensures StartsWithHello(q + Wrap(out)) <==> StartsWithHello(q)
  {
    if q == [] && out != [] {
      assert (q + Wrap(out))[0] == RouteMsg(out[0]);
    }
  }

  lemma ReceiveKeepsGood(nodes: set<NodeId>, n: NodeId, t: Table, u: NodeId, a: Announcement, t': Table, changed: bool)
    requires TableInv(t) && GoodEntries(nodes, n, t) && n in nodes && u != n
    requires a.path.Some? ==> GoodPath(nodes, u, a.recipient, a.path.value)
    requires ReceiveRoute(n, t, u, a, t', changed)
    ensures TableInv(t') && GoodEntries(nodes, n, t')
    ensures forall q, v :: Entry(t', q, v).Some? ==> v == u || Entry(t, q, v).Some?
    ensures forall q :: q != a.recipient ==> Best(t', q) == Best(t, q)
    ensures changed == (Best(t', a.recipient) != Best(t, a.recipient))
    ensures changed ==> a.recipient != n
  {
  }

  lemma ReadKeepsInbox(nodes: set<NodeId>, s: Net, e: End, s': Net)
    requires GoodInbox(nodes, s, e) && Inbox(s, e) != [] && Inbox(s', e) == Inbox(s, e)[1..]
    ensures GoodInbox(nodes, s', e) && !StartsWithHello(Inbox(s', e))
  {
    assert forall m :: m in Inbox(s', e) ==> m in Inbox(s, e);
  }

  lemma ConnectKeepsInbox(nodes: set<NodeId>, s: Net, e: End, out: seq<Announcement>, s': Net, f: End)
    requires LoopFree(nodes, s) && ConnectStep(nodes, s, e, out, s')
    ensures GoodInbox(nodes, s', f)
  {
    assert GoodInbox(nodes, s, f);
    if f == Other(e) {
      assert TableInv(Tab(s, e.node)) && GoodEntries(nodes, e.node, Tab(s, e.node));
      AnnouncementsAreGood(nodes, e.node, Tab(s, e.node), [Hello], out);
    }
  }

  lemma GreetKeepsInbox(nodes: set<NodeId>, s: Net, e: End, out: seq<Announcement>, s': Net, f: End)
    requires LoopFree(nodes, s) && GreetStep(s, e, out, s')
    ensures GoodInbox(nodes, s', f)
  {
    assert GoodInbox(nodes, s, f) && GoodInbox(nodes, s, e) && GoodEnd(nodes, e);
    if f == e {
      ReadKeepsInbox(nodes, s, e, s');
    } else if f == Other(e) {
      AnnouncementsAreGood(nodes, e.node, Tab(s, e.node), Inbox(s, f), out);
    }
  }

  lemma GreetBackKeepsInbox(nodes: set<NodeId>, s: Net, e: End, f: End, out: seq<Announcement>, s': Net, g: End)
    requires LoopFree(nodes, s) && GreetBackStep(s, e, f, out, s')
    ensures GoodInbox(nodes, s', g)
  {
    assert GoodInbox(nodes, s, g) && GoodInbox(nodes, s, e) && GoodEnd(nodes, e);
    if g == e {
      ReadKeepsInbox(nodes, s, e, s');
    } else if g == Other(f) {
      assert TableInv(Tab(s, e.node)) && GoodEntries(nodes, e.node, Tab(s, e.node));
      AnnouncementsAreGood(nodes, e.node, Tab(s, e.node), [Hello], out);
    }
  }

  lemma DeliverKeepsTable(nodes: set<NodeId>, s: Net, e: End, changed: bool, s': Net)
    requires LoopFree(nodes, s) && DeliverStep(s, e, changed, s')
    ensures TableInv(Tab(s', e.node)) && GoodEntries(nodes, e.node, Tab(s', e.node))
    ensures Inbox(s, e)[0].a.recipient in nodes && GoodEnd(nodes, e)
  {
    var a := Inbox(s, e)[0].a;
    assert GoodInbox(nodes, s, e) && RouteMsg(a) in Inbox(s, e) && GoodEnd(nodes, e);
    ReceiveKeepsGood(nodes, e.node, Tab(s, e.node), e.peer, a, Tab(s', e.node), changed);
  }

  lemma DeliverKeepsInbox(nodes: set<NodeId>, s: Net, e: End, changed: bool, s': Net, f: End)
    requires LoopFree(nodes, s) && DeliverStep(s, e, changed, s')
    ensures GoodInbox(nodes, s', f)
  {
    DeliverKeepsTable(nodes, s, e, changed, s');
    assert GoodInbox(nodes, s, f) && GoodInbox(nodes, s, e);
    if f == e {
      ReadKeepsInbox(nodes, s, e, s');
    } else if WrittenBy(s, e.node, f) {
      AnnouncementsAreGood(nodes, e.node, Tab(s', e.node), Inbox(s, f),
                           Reaction(e.node, Tab(s', e.node), Inbox(s, e)[0].a.recipient, changed));
    }
  }

  lemma DeliverKeeps(nodes: set<NodeId>, s: Net, e: End, changed: bool, s': Net)
    requires LoopFree(nodes, s) && DeliverStep(s, e, changed, s')
    ensures LoopFree(nodes, s')
  {
    DeliverKeepsTable(nodes, s, e, changed, s');
    forall f ensures GoodInbox(nodes, s', f) {
      DeliverKeepsInbox(nodes, s, e, changed, s', f);
    }
  }

  lemma CloseKeepsTable(nodes: set<NodeId>, s: Net, e: End, out: seq<Announcement>, s': Net)
    requires LoopFree(nodes, s) && CloseStep(s, e, out, s')
    ensures TableInv(Tab(s', e.node)) && GoodEntries(nodes, e.node, Tab(s', e.node)) && GoodEnd(nodes, e)
    ensures forall a :: a in out ==> a.path == Payload(e.node, Tab(s', e.node), a.recipient) && a.recipient in nodes
  {
    var t, t' := Tab(s, e.node), Tab(s', e.node);
    assert TableInv(t) && GoodEntries(nodes, e.node, t);
    if t' != t || out != [] {
      RemovalKeepsInv(e.node, t, e.peer, t', out);
      forall a | a in out ensures a.recipient in nodes {
        assert Best(t', a.recipient) != Best(t, a.recipient);
      }
    }
  }

  lemma CloseKeepsInbox(nodes: set<NodeId>, s: Net, e: End, out: seq<Announcement>, s': Net, f: End)
    requires LoopFree(nodes, s) && CloseStep(s, e, out, s')
    ensures GoodInbox(nodes, s', f)
  {
    CloseKeepsTable(nodes, s, e, out, s');
    assert GoodInbox(nodes, s, f);
    if f != e && WrittenBy(s', e.node, f) {
      AnnouncementsAreGood(nodes, e.node, Tab(s', e.node), Inbox(s, f), out);
    }
  }

  lemma CloseKeeps(nodes: set<NodeId>, s: Net, e: End, out: seq<Announcement>, s': Net)
    requires LoopFree(nodes, s) && CloseStep(s, e, out, s')
    ensures LoopFree(nodes, s')
  {
    CloseKeepsTable(nodes, s, e, out, s');
    forall f ensures GoodInbox(nodes, s', f) {
      CloseKeepsInbox(nodes, s, e, out, s', f);
    }
  }

  lemma DropKeeps(nodes: set<NodeId>, s: Net, step: Step, s': Net)
    requires LoopFree(nodes, s) && Next(nodes, s, step, s') && (step.Drop? || step.Leave? || step.Accept?)
    ensures LoopFree(nodes, s')
  {
    forall f ensures GoodInbox(nodes, s', f) {
      assert GoodInbox(nodes, s, f);
    }
    forall n ensures TableInv(Tab(s', n)) && GoodEntries(nodes, n, Tab(s', n)) {
      assert TableInv(Tab(s, n)) && GoodEntries(nodes, n, Tab(s, n));
    }
    if step.Accept? {
      assert GoodInbox(nodes, s, step.e);
    }
  }

  lemma NextKeeps(nodes: set<NodeId>, s: Net, step: Step, s': Net)
    requires LoopFree(nodes, s) && Next(nodes, s, step, s')
    ensures LoopFree(nodes, s')
  {
    match step {
      case Connect(e, out) =>
        forall f ensures GoodInbox(nodes, s', f) {
          ConnectKeepsInbox(nodes, s, e, out, s', f);
        }
      case Greet(e, out) =>
        forall f ensures GoodInbox(nodes, s', f) {
          GreetKeepsInbox(nodes, s, e, out, s', f);
        }
      case GreetBack(e, f, out) =>
        forall g ensures GoodInbox(nodes, s', g) {
          GreetBackKeepsInbox(nodes, s, e, f, out, s', g);
        }
      case Deliver(e, changed) => DeliverKeeps(nodes, s, e, changed, s');
      case Close(e, out) => CloseKeeps(nodes, s, e, out, s');
      case _ => DropKeeps(nodes, s, step, s');
    }
  }

  lemma StepKeeps(nodes: set<NodeId>, states: seq<Net>, steps: seq<Step>, i: nat)
    requires Steps(nodes, states, steps) && i < |steps| && LoopFree(nodes, states[i])
    ensures LoopFree(nodes, states[i + 1])
  {
    assert StepAt(nodes, states, steps, i);
    NextKeeps(nodes, states[i], steps[i], states[i + 1]);
  }

  lemma {:induction false} StepsKeepLoopFree(nodes: set<NodeId>, states: seq<Net>, steps: seq<Step>, i: nat)
    requires Steps(nodes, states, steps) && LoopFree(nodes, states[0]) && i < |states|
    ensures LoopFree(nodes, states[i])
  {
    if i > 0 {
      StepsKeepLoopFree(nodes, states, steps, i - 1);
      StepKeeps(nodes, states, steps, i - 1);
    }
  }

  // Every state of every run is loop-free.
  lemma RunIsLoopFree(nodes: set<NodeId>, states: seq<Net>, steps: seq<Step>, i: nat)
    requires Run(nodes, states, steps) && i < |states|
    ensures LoopFree(nodes, states[i])
  {
    InitIsLoopFree(nodes, states[0]);
    StepsKeepLoopFree(nodes, states, steps, i);
  }

  lemma InitIsLoopFree(nodes: set<NodeId>, s: Net)
    requires Init(s)
    ensures LoopFree(nodes, s)
  {
  }

  // So the path buffers never overflow: a stored path has at most N-2 hops, an announced one at most N-1 nodes.
  lemma PathsAreShort(nodes: set<NodeId>, s: Net)
    requires LoopFree(nodes, s)
    ensures forall n, r, u :: Entry(Tab(s, n), r, u).Some? ==> |Entry(Tab(s, n), r, u).value| <= |nodes| - 2
    ensures forall f, a :: RouteMsg(a) in Inbox(s, f) && a.path.Some? ==> |a.path.value| <= |nodes| - 1
  {
    forall n, r, u | Entry(Tab(s, n), r, u).Some?
      ensures |Entry(Tab(s, n), r, u).value| <= |nodes| - 2
    {
      assert GoodEntries(nodes, n, Tab(s, n));
      NoDupCount(Entry(Tab(s, n), r, u).value, nodes - {n} - {r});
    }
    forall f, a | RouteMsg(a) in Inbox(s, f) && a.path.Some?
      ensures |a.path.value| <= |nodes| - 1
    {
      assert GoodInbox(nodes, s, f);
      NoDupCount(a.path.value, nodes - {a.recipient});
    }
  }
}
