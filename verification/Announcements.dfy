/** While links only come up, best paths only get shorter, and each node announces each recipient at most N-1 times. */
module Announcements {
  import opened Nodes
  import opened Wrappers
  import opened RoutingSpec
  import opened Network
  import opened LoopFreedom
  import opened Synchronization
  import opened Columns
  import opened Convergence
  import opened SoleConnections

  // The same path or a strictly shorter one.
  predicate NoLonger(y: Path, x: Path) {
    y == x || |y| < |x|
  }

  // Every node on the path has by now a path of its own at least as short as the rest of it.
  ghost predicate Descends(s: Net, r: NodeId, p: Path) {
    forall k :: 0 <= k < |p| ==> FullPath(s, p[k], r).Some? && |FullPath(s, p[k], r).value| <= |p| + 1 - k
  }

  ghost predicate Improving(q: seq<Message>) {
    forall i, j :: 0 <= i < j < |q| && q[i].RouteMsg? && q[j].RouteMsg? && q[i].a.recipient == q[j].a.recipient
                   && q[i].a.path.Some? && q[j].a.path.Some?
                   ==> NoLonger(q[j].a.path.value, q[i].a.path.value)
  }

  // Nothing the node at the other end has said about a recipient is shorter than what it uses now.
  ghost predicate UpperBounds(s: Net, f: End) {
    && (forall a :: RouteMsg(a) in Inbox(s, f) ==>
          && a.path.Some? && Descends(s, a.recipient, a.path.value)
          && Payload(f.peer, Tab(s, f.peer), a.recipient).Some?
          && NoLonger(Payload(f.peer, Tab(s, f.peer), a.recipient).value, a.path.value))
    && (forall r :: Entry(Tab(s, f.node), r, f.peer).Some? ==>
          && Descends(s, r, Entry(Tab(s, f.node), r, f.peer).value)
          && Payload(f.peer, Tab(s, f.peer), r).Some?
          && NoLonger(Payload(f.peer, Tab(s, f.peer), r).value, Entry(Tab(s, f.node), r, f.peer).value))
    && (forall a :: RouteMsg(a) in Inbox(s, f) && a.path.Some? && Entry(Tab(s, f.node), a.recipient, f.peer).Some? ==>
          NoLonger(a.path.value, Entry(Tab(s, f.node), a.recipient, f.peer).value))
    && Improving(Inbox(s, f))
  }

  ghost predicate OnlyImproves(s: Net) {
    forall f :: UpperBounds(s, f) && (Inbox(s, f) != [] ==> InUse(s, f))
  }

  // From `s` to `s'` no best path disappears, and one that changes gets shorter.
  ghost predicate Better(s: Net, s': Net) {
    forall n, r :: FullPath(s, n, r).Some? ==>
      FullPath(s', n, r).Some? && NoLonger(FullPath(s', n, r).value, FullPath(s, n, r).value)
  }

  lemma DescendsStays(s: Net, s': Net, r: NodeId, p: Path)
    requires Better(s, s') && Descends(s, r, p)
    ensures Descends(s', r, p)
  {
  }

  // The chosen neighbour reports no path, or another one that is not shorter.
  predicate Worsens(n: NodeId, t: Table, u: NodeId, a: Announcement) {
    && Chosen(t, a.recipient) == Some(u) && Entry(t, a.recipient, u).Some?
    && !(Clean(n, a.path).Some? && NoLonger(Clean(n, a.path).value, Entry(t, a.recipient, u).value))
  }

  // A delivery changes at most the receiver's best path to the recipient of the message.
  lemma DeliveryChangesOne(nodes: set<NodeId>, s: Net, e: End, changed: bool, s': Net, n: NodeId, q: NodeId)
    requires LoopFree(nodes, s) && DeliverStep(s, e, changed, s')
    requires n != e.node || q != Inbox(s, e)[0].a.recipient || !changed
    ensures FullPath(s', n, q) == FullPath(s, n, q) && Payload(n, Tab(s', n), q) == Payload(n, Tab(s, n), q)
  {
    if n == e.node {
      ReactionAnnouncesChanges(nodes, s, e, changed, s');
      var out := Reaction(n, Tab(s', n), Inbox(s, e)[0].a.recipient, changed);
      assert Announcement(q, Payload(n, Tab(s', n), q)) !in out;
      assert Best(Tab(s', n), q) == Best(Tab(s, n), q);
    }
  }

  // Unless it worsens what the receiver has, a delivery that changes the best path gives a first path or a strictly
  // shorter one.
  lemma DeliveryShortens(nodes: set<NodeId>, s: Net, e: End, changed: bool, s': Net)
    requires LoopFree(nodes, s) && DeliverStep(s, e, changed, s') && changed
    requires !Worsens(e.node, Tab(s, e.node), e.peer, Inbox(s, e)[0].a)
    ensures var r := Inbox(s, e)[0].a.recipient;
            var t, t' := Tab(s, e.node), Tab(s', e.node);
            && r != e.node && Best(t', r).Some?
            && (Best(t, r).Some? ==> |Best(t', r).value.path| < |Best(t, r).value.path|)
  {
    var a := Inbox(s, e)[0].a;
    var r, t, t' := a.recipient, Tab(s, e.node), Tab(s', e.node);
    assert GoodInbox(nodes, s, e) && RouteMsg(a) in Inbox(s, e) && GoodEnd(nodes, e) && TableInv(t);
    ChangedExactlyWhen(e.node, t, e.peer, r, a.path, t', changed);
    assert Selected(t, Chosen(t, r), r) && Selected(t', Chosen(t, r), r);
    assert Entry(t', r, e.peer) == Clean(e.node, a.path);
  }

  // Whoever else is chosen instead, the new best path is neither the old one nor shorter.
  lemma WorseningIsNotBetter(nodes: set<NodeId>, s: Net, e: End, changed: bool, s': Net)
    requires LoopFree(nodes, s) && DeliverStep(s, e, changed, s')
    requires Worsens(e.node, Tab(s, e.node), e.peer, Inbox(s, e)[0].a)
    ensures !Better(s, s')
  {
    var a, n := Inbox(s, e)[0].a, e.node;
    var r, t, t' := a.recipient, Tab(s, n), Tab(s', n);
    assert GoodInbox(nodes, s, e) && RouteMsg(a) in Inbox(s, e) && GoodEnd(nodes, e);
    DeliverKeepsTable(nodes, s, e, changed, s');
    assert TableInv(t) && GoodEntries(nodes, n, t);
    assert Entry(t', r, e.peer) == Clean(n, a.path) && forall v :: v != e.peer ==> Entry(t', r, v) == Entry(t, r, v);
    assert FullPath(s, n, r) == Some([n] + Entry(t, r, e.peer).value + [r]);
    if FullPath(s', n, r).Some? {
      var p, p' := Best(t, r).value.path, Best(t', r).value.path;
      assert ([n] + p + [r])[1..|p| + 1] == p && ([n] + p' + [r])[1..|p'| + 1] == p';
      assert Minimal(t, r, e.peer) && Entry(t', r, Best(t', r).value.via) == Some(p');
      assert p' != p && |p'| >= |p|;
    }
  }

  // Reading a message makes no best path longer exactly when it does not worsen what the receiver has.
  lemma DeliveryIsBetterExactlyWhen(nodes: set<NodeId>, s: Net, e: End, changed: bool, s': Net)
    requires LoopFree(nodes, s) && DeliverStep(s, e, changed, s')
    ensures Better(s, s') <==> !Worsens(e.node, Tab(s, e.node), e.peer, Inbox(s, e)[0].a)
  {
    if Worsens(e.node, Tab(s, e.node), e.peer, Inbox(s, e)[0].a) {
      WorseningIsNotBetter(nodes, s, e, changed, s');
    } else {
      var r := Inbox(s, e)[0].a.recipient;
      forall n, q | FullPath(s, n, q).Some?
        ensures FullPath(s', n, q).Some? && NoLonger(FullPath(s', n, q).value, FullPath(s, n, q).value)
      {
        if n != e.node || q != r || !changed {
          DeliveryChangesOne(nodes, s, e, changed, s', n, q);
        } else {
          DeliveryShortens(nodes, s, e, changed, s');
        }
      }
    }
  }

  // The neighbour a node has chosen never sends it a path through the node itself, nor a longer one than before.
  lemma NothingWorsens(nodes: set<NodeId>, s: Net, e: End)
    requires LoopFree(nodes, s) && UpperBounds(s, e) && Inbox(s, e) != [] && Inbox(s, e)[0].RouteMsg?
    ensures !Worsens(e.node, Tab(s, e.node), e.peer, Inbox(s, e)[0].a)
  {
    assert RouteMsg(Inbox(s, e)[0].a) in Inbox(s, e);
    assert GoodInbox(nodes, s, e) && GoodEntries(nodes, e.node, Tab(s, e.node)) && TableInv(Tab(s, e.node));
  }

  lemma DeliveryIsBetter(nodes: set<NodeId>, s: Net, e: End, changed: bool, s': Net)
    requires LoopFree(nodes, s) && UpperBounds(s, e) && DeliverStep(s, e, changed, s')
    ensures Better(s, s')
  {
    NothingWorsens(nodes, s, e);
    DeliveryIsBetterExactlyWhen(nodes, s, e, changed, s');
  }

  // The payload of a node whose entries descend, descends.
  lemma PayloadDescends(nodes: set<NodeId>, s: Net, n: NodeId, r: NodeId)
    requires LoopFree(nodes, s) && Payload(n, Tab(s, n), r).Some?
    requires forall u :: Entry(Tab(s, n), r, u).Some? ==> Descends(s, r, Entry(Tab(s, n), r, u).value)
    ensures Descends(s, r, Payload(n, Tab(s, n), r).value)
  {
  }

  lemma PayloadIsBetter(s: Net, s': Net, u: NodeId, r: NodeId)
    requires Better(s, s') && Payload(u, Tab(s, u), r).Some?
    ensures Payload(u, Tab(s', u), r).Some?
    ensures NoLonger(Payload(u, Tab(s', u), r).value, Payload(u, Tab(s, u), r).value)
  {
    assert FullPath(s, u, r).Some?;
    if r != u {
      var f, f' := FullPath(s, u, r).value, FullPath(s', u, r).value;
      assert f[..|f| - 1] == Payload(u, Tab(s, u), r).value && f'[..|f'| - 1] == Payload(u, Tab(s', u), r).value;
    }
  }

  // The node at the other end may say what it uses now, any number of times.
  lemma BoundsAppend(s: Net, s': Net, f: End, w: seq<Announcement>)
    requires UpperBounds(s, f) && Better(s, s')
    requires Inbox(s', f) == Inbox(s, f) + Wrap(w)
    requires forall r :: Entry(Tab(s', f.node), r, f.peer) == Entry(Tab(s, f.node), r, f.peer)
    requires forall a :: a in w ==>
               && a.path.Some? && a.path == Payload(f.peer, Tab(s', f.peer), a.recipient)
               && Descends(s', a.recipient, a.path.value)
    ensures UpperBounds(s', f)
  {
    var u, q, q' := f.peer, Inbox(s, f), Inbox(s', f);
    forall r | Payload(u, Tab(s, u), r).Some?
      ensures Payload(u, Tab(s', u), r).Some?
      ensures NoLonger(Payload(u, Tab(s', u), r).value, Payload(u, Tab(s, u), r).value)
    {
      PayloadIsBetter(s, s', u, r);
    }
    forall r, p | Descends(s, r, p) ensures Descends(s', r, p) {
      DescendsStays(s, s', r, p);
    }
    forall m | m in q' ensures m in q || (m.RouteMsg? && m.a in w) {
    }
    forall i, j | 0 <= i < j < |q'| && q'[i].RouteMsg? && q'[j].RouteMsg? && q'[i].a.recipient == q'[j].a.recipient
                  && q'[i].a.path.Some? && q'[j].a.path.Some?
      ensures NoLonger(q'[j].a.path.value, q'[i].a.path.value)
    {
      if j >= |q| {
        assert q'[j].a in w;
        if i < |q| {
          assert RouteMsg(q[i].a) in q;
        } else {
          assert q'[i].a in w;
        }
      }
    }
  }

  lemma BoundsFrame(s: Net, s': Net, f: End)
    requires UpperBounds(s, f) && Better(s, s') && Inbox(s', f) == Inbox(s, f)
    requires forall r :: Entry(Tab(s', f.node), r, f.peer) == Entry(Tab(s, f.node), r, f.peer)
    ensures UpperBounds(s', f)
  {
    assert Inbox(s, f) + Wrap([]) == Inbox(s, f);
    BoundsAppend(s, s', f, []);
  }

  // A reader takes over, or drops, what the first message says.
  lemma BoundsRead(s: Net, s': Net, f: End)
    requires UpperBounds(s, f) && Better(s, s') && Tab(s', f.peer) == Tab(s, f.peer)
    requires Inbox(s, f) != [] && Inbox(s', f) == Inbox(s, f)[1..]
    requires forall r :: Entry(Tab(s', f.node), r, f.peer).Some? ==>
               Entry(Tab(s', f.node), r, f.peer) == if Inbox(s, f)[0].RouteMsg? && r == Inbox(s, f)[0].a.recipient
                                                    then Inbox(s, f)[0].a.path else Entry(Tab(s, f.node), r, f.peer)
    ensures UpperBounds(s', f)
  {
  }

  lemma DeliveredOrDropped(nodes: set<NodeId>, s: Net, e: End, changed: bool, s': Net, r: NodeId)
    requires LoopFree(nodes, s) && DeliverStep(s, e, changed, s') && Entry(Tab(s', e.node), r, e.peer).Some?
    ensures Entry(Tab(s', e.node), r, e.peer) == if r == Inbox(s, e)[0].a.recipient then Inbox(s, e)[0].a.path
                                                 else Entry(Tab(s, e.node), r, e.peer)
  {
    DeliverKeepsTable(nodes, s, e, changed, s');
    DeliveredEntry(nodes, s, e, changed, s', r, e.peer);
  }

  lemma EntryElsewhere(nodes: set<NodeId>, s: Net, e: End, changed: bool, s': Net, n: NodeId, u: NodeId, r: NodeId)
    requires LoopFree(nodes, s) && DeliverStep(s, e, changed, s') && !Joins(e, u, n)
    ensures Entry(Tab(s', n), r, u) == Entry(Tab(s, n), r, u)
  {
    DeliverKeepsTable(nodes, s, e, changed, s');
    assert GoodEntries(nodes, n, Tab(s, n));
    if n == e.node && r != n {
      DeliveredEntry(nodes, s, e, changed, s', r, u);
    }
  }

  lemma ReactionDescends(nodes: set<NodeId>, s: Net, e: End, changed: bool, s': Net)
    requires LoopFree(nodes, s) && OnlyImproves(s) && DeliverStep(s, e, changed, s') && Better(s, s')
    ensures var r := Inbox(s, e)[0].a.recipient;
            Payload(e.node, Tab(s', e.node), r).Some? ==> Descends(s', r, Payload(e.node, Tab(s', e.node), r).value)
  {
    var r, n := Inbox(s, e)[0].a.recipient, e.node;
    NextKeeps(nodes, s, Deliver(e, changed), s');
    forall v | Entry(Tab(s', n), r, v).Some? ensures Descends(s', r, Entry(Tab(s', n), r, v).value) {
      if v == e.peer {
        assert UpperBounds(s, e) && RouteMsg(Inbox(s, e)[0].a) in Inbox(s, e);
        DeliveredOrDropped(nodes, s, e, changed, s', r);
      } else {
        assert UpperBounds(s, End(n, v, 0));
        EntryElsewhere(nodes, s, e, changed, s', n, v, r);
      }
      DescendsStays(s, s', r, Entry(Tab(s', n), r, v).value);
    }
    if Payload(n, Tab(s', n), r).Some? {
      PayloadDescends(nodes, s', n, r);
    }
  }

  lemma ReactionFits(nodes: set<NodeId>, s: Net, e: End, changed: bool, s': Net)
    requires LoopFree(nodes, s) && OnlyImproves(s) && DeliverStep(s, e, changed, s') && Better(s, s')
    ensures forall a :: a in Reaction(e.node, Tab(s', e.node), Inbox(s, e)[0].a.recipient, changed) ==>
              && a.path.Some? && a.path == Payload(e.node, Tab(s', e.node), a.recipient)
              && Descends(s', a.recipient, a.path.value)
  {
    if changed {
      assert UpperBounds(s, e);
      NothingWorsens(nodes, s, e);
      DeliveryShortens(nodes, s, e, changed, s');
      ReactionDescends(nodes, s, e, changed, s');
    }
  }

  lemma DeliverBoundsRead(nodes: set<NodeId>, s: Net, e: End, changed: bool, s': Net)
    requires LoopFree(nodes, s) && UpperBounds(s, e) && DeliverStep(s, e, changed, s') && Better(s, s')
    ensures UpperBounds(s', e)
  {
    assert GoodEnd(nodes, e);
    forall r | Entry(Tab(s', e.node), r, e.peer).Some?
      ensures Entry(Tab(s', e.node), r, e.peer) == if r == Inbox(s, e)[0].a.recipient then Inbox(s, e)[0].a.path
                                                   else Entry(Tab(s, e.node), r, e.peer)
    {
      DeliveredOrDropped(nodes, s, e, changed, s', r);
    }
    BoundsRead(s, s', e);
  }

  // Another end between the same nodes has nothing unread.
  lemma BesidesIsEmpty(nodes: set<NodeId>, s: Net, e: End, f: End)
    requires SoleInv(nodes, s) && OnlyImproves(s) && e in s.open && SameNodes(f, e) && f != e
    ensures Inbox(s, f) == []
  {
    assert InUse(s, e) && SamePair(e, f);
  }

  lemma DeliverBoundsBesides(nodes: set<NodeId>, s: Net, e: End, changed: bool, s': Net, f: End)
    requires SoleInv(nodes, s) && OnlyImproves(s) && DeliverStep(s, e, changed, s') && Better(s, s')
    requires SameNodes(f, e) && f != e
    ensures UpperBounds(s', f)
  {
    assert UpperBounds(s, e) && GoodEnd(nodes, e);
    BesidesIsEmpty(nodes, s, e, f);
    DeliverBoundsRead(nodes, s, e, changed, s');
    assert Inbox(s', f) == [];
  }

  lemma DeliverBoundsElsewhere(nodes: set<NodeId>, s: Net, e: End, changed: bool, s': Net, f: End)
    requires LoopFree(nodes, s) && OnlyImproves(s) && DeliverStep(s, e, changed, s') && Better(s, s')
    requires !SameNodes(f, e)
    ensures UpperBounds(s', f)
  {
    assert UpperBounds(s, f);
    forall r ensures Entry(Tab(s', f.node), r, f.peer) == Entry(Tab(s, f.node), r, f.peer) {
      EntryElsewhere(nodes, s, e, changed, s', f.node, f.peer, r);
    }
    if WrittenBy(s, e.node, f) {
      ReactionFits(nodes, s, e, changed, s');
      BoundsAppend(s, s', f, Reaction(e.node, Tab(s', e.node), Inbox(s, e)[0].a.recipient, changed));
    } else {
      BoundsFrame(s, s', f);
    }
  }

  // The table of `n` may be dumped at any time.
  lemma DumpDescends(nodes: set<NodeId>, s: Net, n: NodeId, out: seq<Announcement>)
    requires LoopFree(nodes, s) && OnlyImproves(s) && Dump(n, Tab(s, n), out)
    ensures forall a :: a in out ==> Descends(s, a.recipient, a.path.value)
  {
    forall a | a in out ensures Descends(s, a.recipient, a.path.value) {
      forall v | Entry(Tab(s, n), a.recipient, v).Some?
        ensures Descends(s, a.recipient, Entry(Tab(s, n), a.recipient, v).value)
      {
        assert UpperBounds(s, End(n, v, 0));
      }
      PayloadDescends(nodes, s, n, a.recipient);
    }
  }

  lemma SameTablesAreBetter(s: Net, s': Net)
    requires SameTables(s, s')
    ensures Better(s, s')
    ensures forall r, p :: Descends(s, r, p) ==> Descends(s', r, p)
  {
  }

  lemma FreshBounds(s: Net, f: End, out: seq<Announcement>)
    requires Inbox(s, f) == [Hello] + Wrap(out) && forall r :: Entry(Tab(s, f.node), r, f.peer).None?
    requires forall a :: a in out ==>
               && a.path.Some? && a.path == Payload(f.peer, Tab(s, f.peer), a.recipient)
               && Descends(s, a.recipient, a.path.value)
    ensures UpperBounds(s, f)
  {
  }

  lemma ConnectBounds(nodes: set<NodeId>, s: Net, e: End, out: seq<Announcement>, s': Net, f: End)
    requires SoleInv(nodes, s) && OnlyImproves(s) && ConnectStep(nodes, s, e, out, s') && KeepsSole(s, Connect(e, out))
    ensures UpperBounds(s', f)
  {
    assert UpperBounds(s, f);
    SameTablesAreBetter(s, s');
    forall r | SamePair(f, e) ensures Entry(Tab(s, f.node), r, f.peer).None? {
      NoColumnBefore(nodes, s, f, r);
    }
    if f == Other(e) {
      DumpDescends(nodes, s, e.node, out);
      FreshBounds(s', f, out);
    } else if f == e {
      assert Inbox(s', f) == [];
    } else {
      BoundsFrame(s, s', f);
    }
  }

  lemma GreetBounds(nodes: set<NodeId>, s: Net, e: End, out: seq<Announcement>, s': Net, f: End)
    requires LoopFree(nodes, s) && OnlyImproves(s) && GreetStep(s, e, out, s')
    ensures UpperBounds(s', f)
  {
    assert UpperBounds(s, f) && GoodEnd(nodes, e);
    SameTablesAreBetter(s, s');
    if f == e {
      BoundsRead(s, s', f);
    } else if f == Other(e) {
      DumpDescends(nodes, s, e.node, out);
      BoundsAppend(s, s', f, out);
    } else {
      BoundsFrame(s, s', f);
    }
  }

  // No connection goes down, or comes up beside another one.
  ghost predicate GoesUp(s: Net, step: Step) {
    !step.Close? && !step.Drop? && !step.Leave? && KeepsSole(s, step)
  }

  lemma UnreadIsInUse(nodes: set<NodeId>, s: Net, step: Step, s': Net, f: End)
    requires SoleInv(nodes, s) && OnlyImproves(s) && Next(nodes, s, step, s') && GoesUp(s, step) && Inbox(s', f) != []
    ensures InUse(s', f)
  {
    assert Inbox(s, f) != [] ==> InUse(s, f);
    if step.Deliver? || step.Greet? {
      assert GoodInbox(nodes, s, step.e) && GoodInbox(nodes, s, f) && GoodInbox(nodes, s, Other(f));
    }
  }

  lemma NextBounds(nodes: set<NodeId>, s: Net, step: Step, s': Net, f: End)
    requires SoleInv(nodes, s) && OnlyImproves(s) && Next(nodes, s, step, s') && GoesUp(s, step) && Better(s, s')
    ensures UpperBounds(s', f)
  {
    match step {
      case Connect(e, out) => ConnectBounds(nodes, s, e, out, s', f);
      case Accept(e) =>
        assert UpperBounds(s, f);
        BoundsFrame(s, s', f);
      case Greet(e, out) => GreetBounds(nodes, s, e, out, s', f);
      case Deliver(e, changed) =>
        if f == e {
          assert UpperBounds(s, e);
          DeliverBoundsRead(nodes, s, e, changed, s');
        } else if SameNodes(f, e) {
          DeliverBoundsBesides(nodes, s, e, changed, s', f);
        } else {
          DeliverBoundsElsewhere(nodes, s, e, changed, s', f);
        }
    }
  }

  lemma NextImproves(nodes: set<NodeId>, s: Net, step: Step, s': Net)
    requires SoleInv(nodes, s) && OnlyImproves(s) && Next(nodes, s, step, s') && GoesUp(s, step)
    ensures OnlyImproves(s') && Better(s, s')
  {
    if step.Deliver? {
      assert UpperBounds(s, step.e);
      DeliveryIsBetter(nodes, s, step.e, step.changed, s');
    } else {
      SameTablesAreBetter(s, s');
    }
    forall f ensures UpperBounds(s', f) && (Inbox(s', f) != [] ==> InUse(s', f)) {
      NextBounds(nodes, s, step, s', f);
      if Inbox(s', f) != [] {
        UnreadIsInUse(nodes, s, step, s', f);
      }
    }
  }

  ghost predicate GoesUpAt(states: seq<Net>, steps: seq<Step>, i: nat)
    requires |states| == |steps| + 1 && i < |steps|
  {
    GoesUp(states[i], steps[i])
  }

  ghost predicate OnlyUp(states: seq<Net>, steps: seq<Step>)
    requires |states| == |steps| + 1
  {
    forall i :: 0 <= i < |steps| ==> GoesUpAt(states, steps, i)
  }

  ghost predicate ImprovesAt(nodes: set<NodeId>, states: seq<Net>, i: nat)
    requires i < |states|
  {
    SoleInv(nodes, states[i]) && OnlyImproves(states[i])
  }

  lemma InitImproves(s: Net)
    requires Init(s)
    ensures OnlyImproves(s)
  {
  }

  lemma ImprovingStep(nodes: set<NodeId>, states: seq<Net>, steps: seq<Step>, i: nat)
    requires Steps(nodes, states, steps) && i < |steps| && GoesUpAt(states, steps, i) && ImprovesAt(nodes, states, i)
    ensures ImprovesAt(nodes, states, i + 1) && Better(states[i], states[i + 1])
  {
    assert StepAt(nodes, states, steps, i);
    SoleInvKept(nodes, states[i], steps[i], states[i + 1]);
    NextImproves(nodes, states[i], steps[i], states[i + 1]);
  }

  lemma {:induction false} RunImproves(nodes: set<NodeId>, states: seq<Net>, steps: seq<Step>, i: nat)
    requires Run(nodes, states, steps) && OnlyUp(states, steps) && i < |states|
    ensures ImprovesAt(nodes, states, i)
  {
    if i > 0 {
      RunImproves(nodes, states, steps, i - 1);
      ImprovingStep(nodes, states, steps, i - 1);
    } else {
      InitIsSole(nodes, states[0]);
      InitImproves(states[0]);
    }
  }

  // Node `n` announces a new best path to `r` in step `i`.
  ghost predicate Announces(states: seq<Net>, steps: seq<Step>, n: NodeId, r: NodeId, i: nat)
    requires |states| == |steps| + 1 && i < |steps|
  {
    && steps[i].Deliver? && steps[i].e.node == n && steps[i].changed && Inbox(states[i], steps[i].e) != []
    && Inbox(states[i], steps[i].e)[0].RouteMsg? && Inbox(states[i], steps[i].e)[0].a.recipient == r
  }

  ghost function AnnouncementCount(states: seq<Net>, steps: seq<Step>, n: NodeId, r: NodeId, i: nat): nat
    requires |states| == |steps| + 1 && i <= |steps|
  {
    if i == 0 then 0
    else AnnouncementCount(states, steps, n, r, i - 1) + if Announces(states, steps, n, r, i - 1) then 1 else 0
  }

  lemma BestIsShort(nodes: set<NodeId>, s: Net, n: NodeId, r: NodeId)
    requires LoopFree(nodes, s) && n != r && FullPath(s, n, r).Some?
    ensures 2 <= |FullPath(s, n, r).value| <= |nodes|
  {
    var b := Best(Tab(s, n), r).value;
    assert Entry(Tab(s, n), r, b.via) == Some(b.path);
    PathsAreShort(nodes, s);
  }

  lemma AnnouncedIsShorter(nodes: set<NodeId>, states: seq<Net>, steps: seq<Step>, n: NodeId, r: NodeId, i: nat)
    requires Steps(nodes, states, steps) && i < |steps| && Announces(states, steps, n, r, i)
    requires ImprovesAt(nodes, states, i)
    ensures n != r && FullPath(states[i + 1], n, r).Some?
    ensures FullPath(states[i], n, r).Some? ==>
              |FullPath(states[i + 1], n, r).value| < |FullPath(states[i], n, r).value|
  {
    assert StepAt(nodes, states, steps, i) && UpperBounds(states[i], steps[i].e);
    NothingWorsens(nodes, states[i], steps[i].e);
    DeliveryShortens(nodes, states[i], steps[i].e, true, states[i + 1]);
  }

  // After `count` announcements.
  ghost predicate Counted(nodes: set<NodeId>, s: Net, n: NodeId, r: NodeId, count: nat) {
    match FullPath(s, n, r)
    case None => count == 0
    case Some(f) => count + |f| <= |nodes| + 1 && 2 <= |f|
  }

  // One step of the count below.
  lemma CountStep(nodes: set<NodeId>, states: seq<Net>, steps: seq<Step>, n: NodeId, r: NodeId, i: nat)
    requires Steps(nodes, states, steps) && i < |steps| && GoesUpAt(states, steps, i) && n != r
    requires ImprovesAt(nodes, states, i) && Counted(nodes, states[i], n, r, AnnouncementCount(states, steps, n, r, i))
    ensures Counted(nodes, states[i + 1], n, r, AnnouncementCount(states, steps, n, r, i + 1))
  {
    ImprovingStep(nodes, states, steps, i);
    if FullPath(states[i + 1], n, r).Some? {
      BestIsShort(nodes, states[i + 1], n, r);
    }
    if Announces(states, steps, n, r, i) {
      AnnouncedIsShorter(nodes, states, steps, n, r, i);
    }
  }

  // Without links going down a best path is never withdrawn, and one that changes gets shorter.
  lemma RunGetsBetter(nodes: set<NodeId>, states: seq<Net>, steps: seq<Step>, i: nat)
    requires Run(nodes, states, steps) && OnlyUp(states, steps) && i < |steps|
    ensures Better(states[i], states[i + 1])
  {
    RunImproves(nodes, states, steps, i);
    ImprovingStep(nodes, states, steps, i);
  }

  lemma NothingAtFirst(nodes: set<NodeId>, s: Net, n: NodeId, r: NodeId)
    requires Init(s) && n != r
    ensures Counted(nodes, s, n, r, 0)
  {
  }

  lemma {:induction false} CountedAt(nodes: set<NodeId>, states: seq<Net>, steps: seq<Step>, n: NodeId, r: NodeId,
                                     i: nat)
    requires Run(nodes, states, steps) && OnlyUp(states, steps) && i <= |steps| && n != r
    ensures Counted(nodes, states[i], n, r, AnnouncementCount(states, steps, n, r, i))
  {
    if i == 0 {
      NothingAtFirst(nodes, states[0], n, r);
    } else {
      CountedAt(nodes, states, steps, n, r, i - 1);
      RunImproves(nodes, states, steps, i - 1);
      CountStep(nodes, states, steps, n, r, i - 1);
    }
  }

  // And each node announces each recipient at most N-1 times.
  lemma BoundedAnnouncements(nodes: set<NodeId>, states: seq<Net>, steps: seq<Step>, n: NodeId, r: NodeId, i: nat)
    requires Run(nodes, states, steps) && OnlyUp(states, steps) && i <= |steps| && n != r
    ensures FullPath(states[i], n, r).None? ==> AnnouncementCount(states, steps, n, r, i) == 0
    ensures FullPath(states[i], n, r).Some? ==>
              && AnnouncementCount(states, steps, n, r, i) + |FullPath(states[i], n, r).value| <= |nodes| + 1
              && AnnouncementCount(states, steps, n, r, i) <= |nodes| - 1
  {
    CountedAt(nodes, states, steps, n, r, i);
  }

  // Why one connection between two nodes matters.  Node 1 has read on one connection all that node 2 says of node 4,
  // and on a second one still has the older, longer path before it.
  const CLOSER := Table(map[(2, 2) := [], (4, 2) := [2]], map[2 := 2, 4 := 2])
  const FARTHER := Table(map[(2, 2) := [], (4, 2) := [2, 3]], map[2 := 2, 4 := 2])
  const NEXT_TO_4 := Table(map[(1, 1) := [], (4, 4) := []], map[1 := 1, 4 := 4])
  const TWICE := {End(1, 2, 0), End(2, 1, 0), End(1, 2, 1), End(2, 1, 1)}
  const OLD := RouteMsg(Says(4, [2, 3]))
  const NEW := RouteMsg(Says(4, [2]))
  const TOLD := RouteMsg(Says(4, [1, 2, 3]))
  const BEFORE := Net(map[1 := CLOSER, 2 := NEXT_TO_4], TWICE, map[End(1, 2, 1) := [OLD, NEW]])
  const AFTER := Net(map[1 := FARTHER, 2 := NEXT_TO_4], TWICE,
                     map[End(1, 2, 1) := [NEW], End(2, 1, 0) := [TOLD], End(2, 1, 1) := [TOLD]])

  lemma BeforeTables()
    ensures TableInv(CLOSER) && GoodEntries({1, 2, 3, 4}, 1, CLOSER)
    ensures TableInv(NEXT_TO_4) && GoodEntries({1, 2, 3, 4}, 2, NEXT_TO_4)
  {
    assert Entry(CLOSER, 4, 2) == Some([2]) && Entry(CLOSER, 2, 2) == Some([]);
  }

  lemma BeforeIsLoopFree()
    ensures LoopFree({1, 2, 3, 4}, BEFORE)
  {
    BeforeTables();
    forall f ensures GoodInbox({1, 2, 3, 4}, BEFORE, f) {
      assert f != End(1, 2, 1) ==> Inbox(BEFORE, f) == [];
    }
  }

  lemma Node1IsInStep(r: NodeId)
    requires r != 1
    ensures InStep(BEFORE, 2, 1, r)
  {
    assert [OLD, NEW][..1] == [OLD] && [OLD][..0] == [];
    assert LastWord([OLD], r) == if r == 4 then Some(Some([2, 3])) else None;
    assert LastWord([OLD, NEW], r) == if r == 4 then Some(Some([2])) else None;
    assert Best(NEXT_TO_4, 4) == Some(BestPath(4, [])) && [2] + [] == [2];
    assert r == 4 ==> Mentions(BEFORE, End(1, 2, 1), 4);
  }

  lemma Node2IsInStep(r: NodeId)
    requires r != 2
    ensures InStep(BEFORE, 1, 2, r)
  {
  }

  lemma BeforeIsSynchronized()
    ensures Synchronized(BEFORE)
  {
    forall u, n, r | r != n && Linked(BEFORE, u, n) ensures InStep(BEFORE, u, n, r) {
      if n == 1 {
        Node1IsInStep(r);
      } else {
        Node2IsInStep(r);
      }
    }
  }

  lemma Node1ReadsOldPath()
    ensures ReceiveRoute(1, CLOSER, 2, OLD.a, FARTHER, true) && Wrap(Reaction(1, FARTHER, 4, true)) == [TOLD]
  {
    assert Best(CLOSER, 4) == Some(BestPath(2, [2])) && Best(FARTHER, 4) == Some(BestPath(2, [2, 3]));
    assert [1] + [2, 3] == [1, 2, 3];
  }

  lemma SecondConnectionLengthens()
    ensures LoopFree({1, 2, 3, 4}, BEFORE) && Synchronized(BEFORE)
    ensures DeliverStep(BEFORE, End(1, 2, 1), true, AFTER) && !Better(BEFORE, AFTER)
  {
    BeforeIsLoopFree();
    BeforeIsSynchronized();
    Node1ReadsOldPath();
    assert [OLD, NEW][1..] == [NEW] && [] + [TOLD] == [TOLD];
    DeliveryIsBetterExactlyWhen({1, 2, 3, 4}, BEFORE, End(1, 2, 1), true, AFTER);
  }
}
