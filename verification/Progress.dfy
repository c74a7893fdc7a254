/** When no more links come up or are taken down, the network becomes quiet, in whatever order its nodes act. */
module Progress {
  import opened Nodes
  import opened Wrappers
  import opened RoutingSpec
  import opened Network
  import opened LoopFreedom
  import opened Synchronization
  import opened Columns
  import opened Convergence
  import opened SoleConnections
  import opened Termination
  import opened Sums

  lemma {:induction false} Listing<T>(items: set<T>) returns (list: seq<T>)
    ensures NoDup(list) && forall x :: x in list <==> x in items
    decreases |items|
  {
    list := [];
    if items != {} {
      var x :| x in items;
      var rest := Listing(items - {x});
      list := [x] + rest;
    }
  }

  lemma {:induction false} ShortestOf(t: Table, r: NodeId, candidates: seq<NodeId>) returns (u: NodeId)
    requires candidates != [] && forall v :: v in candidates ==> Entry(t, r, v).Some?
    ensures u in candidates && forall v :: v in candidates ==> |Entry(t, r, u).value| <= |Entry(t, r, v).value|
    decreases |candidates|
  {
    u := candidates[0];
    if |candidates| > 1 {
      var w := ShortestOf(t, r, candidates[1..]);
      if |Entry(t, r, w).value| < |Entry(t, r, u).value| {
        u := w;
      }
    }
  }

  // A choice as the table update makes it always exists.
  lemma ChoiceExists(t: Table, before: Option<NodeId>, r: NodeId) returns (t': Table)
    ensures t'.entries == t.entries && t'.forwarding - {r} == t.forwarding - {r}
    ensures Selected(t', before, r)
  {
    var keys := Listing(set k | k in t.entries && k.0 == r);
    var candidates := seq(|keys|, i requires 0 <= i < |keys| => keys[i].1);
    forall v | (r, v) in t.entries ensures v in candidates {
      assert (r, v).0 == r && (r, v) in keys;
      var i :| 0 <= i < |keys| && keys[i] == (r, v);
      assert candidates[i] == v;
    }
    forall v | v in candidates ensures (r, v) in t.entries {
      var i :| 0 <= i < |keys| && candidates[i] == v;
      assert keys[i] in keys;
    }
    t' := t.(forwarding := t.forwarding - {r});
    assert forall q, v :: Entry(t', q, v) == Entry(t, q, v);
    if candidates != [] {
      var v := ShortestOf(t, r, candidates);
      if before.Some? && Minimal(t, r, before.value) {
        v := before.value;
      }
      t' := t.(forwarding := t.forwarding[r := v]);
      assert forall q, w :: Entry(t', q, w) == Entry(t, q, w);
    }
  }

  lemma UpdateExists(self: NodeId, t: Table, u: NodeId, r: NodeId, p: Option<Path>) returns (t': Table, changed: bool)
    ensures Update(self, t, u, r, p, t', changed)
  {
    if r == self || u == self {
      return t, false;
    }
    var key, kept := (r, u), Clean(self, p);
    var entries := if kept.Some? then t.entries[key := kept.value] else t.entries - {key};
    t' := ChoiceExists(Table(entries, t.forwarding), Chosen(t, r), r);
    changed := Best(t', r) != Best(t, r);
    forall q | q != r ensures Chosen(t', q) == Chosen(t, q) {
      assert q in t'.forwarding - {r} <==> q in t.forwarding - {r};
    }
  }

  lemma DumpExists(nodes: set<NodeId>, n: NodeId, t: Table) returns (out: seq<Announcement>)
    requires TableInv(t) && GoodEntries(nodes, n, t)
    ensures Dump(n, t, out)
  {
    forall r ensures Payload(n, t, r).Some? <==> r == n || r in t.forwarding {
      assert Selected(t, Chosen(t, r), r);
    }
    var ids := Listing(t.forwarding.Keys - {n});
    var all := [n] + ids;
    assert forall x :: x in all <==> x == n || x in t.forwarding;
    out := seq(|all|, i requires 0 <= i < |all| => Announcement(all[i], Payload(n, t, all[i])));
    forall i | 0 <= i < |all| ensures out[i].path.Some? {
      assert all[i] in all;
    }
    forall r | Payload(n, t, r).Some? ensures Announcement(r, Payload(n, t, r)) in out {
      assert r in all;
      var i :| 0 <= i < |all| && all[i] == r;
      assert out[i] == Announcement(r, Payload(n, t, r));
    }
  }

  lemma {:induction false} RemovalSoFarExists(self: NodeId, t: Table, u: NodeId, rows: seq<NodeId>)
    returns (t': Table, out: seq<Announcement>)
    requires u != self && self !in rows && NoDup(rows)
    ensures RemovalSoFar(self, t, u, rows, t', out)
    decreases |rows|
  {
    if rows == [] {
      t', out := t, [];
    } else {
      var rest, q := rows[..|rows| - 1], rows[|rows| - 1];
      var t0, out0 := RemovalSoFarExists(self, t, u, rest);
      var changed;
      t', changed := UpdateExists(self, t0, u, q, None);
      out := out0 + if changed then [Announcement(q, Payload(self, t', q))] else [];
      RemovalStep(self, t, u, rest, t0, out0, q, t', changed);
      assert rows == rest + [q];
    }
  }

  lemma RemovalExists(nodes: set<NodeId>, self: NodeId, t: Table, u: NodeId) returns (t': Table, out: seq<Announcement>)
    requires TableInv(t) && GoodEntries(nodes, self, t) && u != self
    ensures Removal(self, t, u, t', out)
  {
    var rows := Listing((set k | k in t.entries :: k.0) - {self});
    forall q, v | Entry(t, q, v).Some? ensures q in rows {
      assert (q, v) in t.entries && (q, v).0 == q;
    }
    t', out := RemovalSoFarExists(self, t, u, rows);
    RemovalDone(self, t, u, rows, t', out);
  }

  // One message is read at `e`, and `w` is written on all connections of its node.
  lemma InboxesAfter(s: Net, e: End, w: seq<Message>) returns (s': Net)
    requires Inbox(s, e) != [] && e.node != e.peer
    ensures s'.tables == s.tables && s'.open == s.open
    ensures forall f :: Inbox(s', f) == if f == e then Inbox(s, f)[1..]
                                        else if WrittenBy(s, e.node, f) then Inbox(s, f) + w else Inbox(s, f)
  {
    s' := s.(inboxes := map f | f in s.inboxes.Keys + (set g | g in s.open :: Other(g)) ::
                          if f == e then Inbox(s, f)[1..]
                          else if WrittenBy(s, e.node, f) then Inbox(s, f) + w else Inbox(s, f));
    forall f ensures Inbox(s', f) == if f == e then Inbox(s, f)[1..]
                                     else if WrittenBy(s, e.node, f) then Inbox(s, f) + w else Inbox(s, f) {
      assert f == Other(Other(f));
    }
  }

  lemma DeliverExists(s: Net, e: End) returns (changed: bool, s': Net)
    requires e in s.open && Inbox(s, e) != [] && Inbox(s, e)[0].RouteMsg? && e.node != e.peer
    ensures DeliverStep(s, e, changed, s')
  {
    var a, n := Inbox(s, e)[0].a, e.node;
    var t';
    t', changed := UpdateExists(n, Tab(s, n), e.peer, a.recipient, a.path);
    if (a.path.Some? && (e.peer == a.recipient) != (a.path.value == [])) || (a.path.None? && a.recipient == n) {
      t', changed := Tab(s, n), false;
    }
    var moved := InboxesAfter(s, e, Wrap(Reaction(n, t', a.recipient, changed)));
    s' := moved.(tables := s.tables[n := t']);
    assert Tab(s', n) == t' && forall f :: Inbox(s', f) == Inbox(moved, f);
  }

  lemma GreetExists(nodes: set<NodeId>, s: Net, e: End) returns (step: Step, s': Net)
    requires LoopFree(nodes, s) && e in s.open && StartsWithHello(Inbox(s, e))
    ensures step.Greet? && step == Greet(e, step.out) && GreetStep(s, e, step.out, s')
  {
    assert GoodEnd(nodes, e) && TableInv(Tab(s, e.node)) && GoodEntries(nodes, e.node, Tab(s, e.node));
    var out := DumpExists(nodes, e.node, Tab(s, e.node));
    s' := Net(s.tables, s.open,
              s.inboxes[e := Inbox(s, e)[1..]][Other(e) := Inbox(s, Other(e)) + Wrap(out)]);
    step := Greet(e, out);
  }

  lemma AcceptExists(s: Net, e: End) returns (s': Net)
    requires Pending(s, e)
    ensures AcceptStep(s, e, s')
  {
    s' := s.(open := s.open + {e});
    assert forall f :: Inbox(s', f) == Inbox(s, f);
  }

  lemma RemovesColumnExists(nodes: set<NodeId>, s: Net, e: End) returns (t': Table, out: seq<Announcement>)
    requires TableInv(Tab(s, e.node)) && GoodEntries(nodes, e.node, Tab(s, e.node)) && e.node != e.peer
    ensures RemovesColumn(s, e, t', out)
  {
    t', out := Tab(s, e.node), [];
    if Introduced(s, e) && !KnownOtherwise(s, e) {
      t', out := RemovalExists(nodes, e.node, Tab(s, e.node), e.peer);
    }
  }

  lemma CloseExists(nodes: set<NodeId>, s: Net, e: End) returns (step: Step, s': Net)
    requires LoopFree(nodes, s) && e in s.open
    ensures step.Close? && step == Close(e, step.out) && CloseStep(s, e, step.out, s')
  {
    assert GoodEnd(nodes, e) && TableInv(Tab(s, e.node)) && GoodEntries(nodes, e.node, Tab(s, e.node));
    var t', out := RemovesColumnExists(nodes, s, e);
    var open := s.open - {e};
    var moved := s.(open := open);
    s' := Net(s.tables[e.node := t'], open,
              map f | f in s.inboxes.Keys + (set g | g in open :: Other(g)) ::
                if f == e then [] else if WrittenBy(moved, e.node, f) then Inbox(s, f) + Wrap(out) else Inbox(s, f));
    forall f ensures Inbox(s', f) == if f == e then []
                                     else if WrittenBy(s', e.node, f) then Inbox(s, f) + Wrap(out) else Inbox(s, f) {
      assert f == Other(Other(f)) && (WrittenBy(s', e.node, f) <==> WrittenBy(moved, e.node, f));
    }
    step := Close(e, out);
  }

  // A step that follows from earlier ones: no connection is opened, and a node closes its end of one only when the
  // other end is closed and it has read all there was.
  predicate IsSettling(s: Net, step: Step) {
    match step
    case Close(e, _) => Other(e) !in s.open && !Pending(s, Other(e)) && Inbox(s, e) == []
    case _ => IsReading(step)
  }

  // Unless the network is quiet some node can go on.
  lemma SettlingGoesOn(nodes: set<NodeId>, s: Net) returns (step: Step, s': Net)
    requires LoopFree(nodes, s) && !Quiet(s)
    ensures IsSettling(s, step) && Next(nodes, s, step, s')
  {
    if e :| Pending(s, e) {
      s' := AcceptExists(s, e);
      step := Accept(e);
    } else if e :| e in s.open && Inbox(s, e) != [] {
      assert GoodEnd(nodes, e);
      if Inbox(s, e)[0] == Hello {
        step, s' := GreetExists(nodes, s, e);
      } else {
        var changed;
        changed, s' := DeliverExists(s, e);
        step := Deliver(e, changed);
      }
    } else {
      var e :| e in s.open && Other(e) !in s.open;
      step, s' := CloseExists(nodes, s, e);
    }
  }

  lemma CloseLeavesFewer(nodes: set<NodeId>, s: Net, step: Step, s': Net)
    requires LoopFree(nodes, s) && Next(nodes, s, step, s') && step.Close?
    ensures Ends(s') < Ends(s)
  {
    WaitingShrinks(nodes, s, step, s');
    SubsetCount(Waiting(s'), Waiting(s));
    assert |s'.open| == |s.open| - 1;
  }

  // Each such step brings the end nearer: it leaves fewer ends to open or close, or as many and less to read.
  lemma SettlingFalls(base: nat, nodes: set<NodeId>, s: Net, step: Step, s': Net)
    requires LoopFree(nodes, s) && Next(nodes, s, step, s') && IsSettling(s, step) && base > 2 * Ends(s)
    ensures Ends(s') < Ends(s)
            || (Ends(s') == Ends(s) && Measure(base, nodes, s') < Measure(base, nodes, s))
  {
    if step.Close? {
      CloseLeavesFewer(nodes, s, step, s');
    } else {
      ReadingFalls(base, nodes, s, step, s');
    }
  }

  // The ends, and what is left to read on the scale they give.
  ghost predicate Left(nodes: set<NodeId>, s: Net, ends: nat, base: nat, rank: nat) {
    LoopFree(nodes, s) && ends == Ends(s) && base > 2 * ends && rank == Measure(base, nodes, s)
  }

  lemma SettlingStep(nodes: set<NodeId>, s: Net, step: Step, s': Net, ends: nat, base: nat, rank: nat)
    returns (ends': nat, base': nat, rank': nat)
    requires Left(nodes, s, ends, base, rank) && Next(nodes, s, step, s') && IsSettling(s, step)
    ensures Left(nodes, s', ends', base', rank') && (ends' < ends || (ends' == ends && rank' < rank))
  {
    NextKeeps(nodes, s, step, s');
    SettlingFalls(base, nodes, s, step, s');
    ends' := Ends(s');
    base' := if ends' < ends then 2 * ends' + 1 else base;
    rank' := Measure(base', nodes, s');
  }

  // So no endless run consists of such steps from some point on.
  lemma {:induction false} NoEndlessSettling(nodes: set<NodeId>, states: nat -> Net, steps: nat -> Step, i: nat,
                                             ends: nat, base: nat, rank: nat)
    requires Left(nodes, states(i), ends, base, rank)
    ensures exists k :: k >= i && !SettlesFrom(nodes, states, steps, k)
    decreases ends, rank
  {
    if SettlesFrom(nodes, states, steps, i) {
      var ends', base', rank' := SettlingStep(nodes, states(i), steps(i), states(i + 1), ends, base, rank);
      NoEndlessSettling(nodes, states, steps, i + 1, ends', base', rank');
    }
  }

  ghost predicate SettlesFrom(nodes: set<NodeId>, states: nat -> Net, steps: nat -> Step, k: nat) {
    Next(nodes, states(k), steps(k), states(k + 1)) && IsSettling(states(k), steps(k))
  }

  lemma SettlingEnds(nodes: set<NodeId>, states: nat -> Net, steps: nat -> Step, i: nat)
    requires LoopFree(nodes, states(i))
    ensures exists k :: k >= i && !SettlesFrom(nodes, states, steps, k)
  {
    var base := 2 * Ends(states(i)) + 1;
    NoEndlessSettling(nodes, states, steps, i, Ends(states(i)), base, Measure(base, nodes, states(i)));
  }

  ghost predicate SettlesAt(states: seq<Net>, steps: seq<Step>, i: nat)
    requires |states| == |steps| + 1 && i < |steps|
  {
    IsSettling(states[i], steps[i])
  }

  lemma Prepend(nodes: set<NodeId>, s: Net, step: Step, states: seq<Net>, steps: seq<Step>)
    requires Steps(nodes, states, steps) && forall i :: 0 <= i < |steps| ==> SettlesAt(states, steps, i)
    requires Next(nodes, s, step, states[0]) && IsSettling(s, step)
    ensures Steps(nodes, [s] + states, [step] + steps)
    ensures forall i :: 0 <= i < |[step] + steps| ==> SettlesAt([s] + states, [step] + steps, i)
  {
    StepsPrepend(nodes, s, step, states, steps);
    forall i | 0 < i < |[step] + steps| ensures SettlesAt([s] + states, [step] + steps, i) {
      assert SettlesAt(states, steps, i - 1);
    }
  }

  lemma {:induction false} Settles(nodes: set<NodeId>, s: Net, ends: nat, base: nat, rank: nat)
    returns (states: seq<Net>, steps: seq<Step>)
    requires Left(nodes, s, ends, base, rank)
    ensures Steps(nodes, states, steps) && forall i :: 0 <= i < |steps| ==> SettlesAt(states, steps, i)
    ensures states[0] == s && Quiet(states[|steps|])
    decreases ends, rank
  {
    states, steps := [s], [];
    if !Quiet(s) {
      var step, s' := SettlingGoesOn(nodes, s);
      var ends', base', rank' := SettlingStep(nodes, s, step, s', ends, base, rank);
      var rest, restSteps := Settles(nodes, s', ends', base', rank');
      Prepend(nodes, s, step, rest, restSteps);
      states, steps := [s] + rest, [step] + restSteps;
    }
  }

  // Every reachable state can be continued by such steps to one in which nothing is in flight.
  lemma ReachesQuiet(nodes: set<NodeId>, s: Net) returns (states: seq<Net>, steps: seq<Step>)
    requires LoopFree(nodes, s)
    ensures Steps(nodes, states, steps) && forall i :: 0 <= i < |steps| ==> SettlesAt(states, steps, i)
    ensures states[0] == s && Quiet(states[|steps|])
  {
    var base := 2 * Ends(s) + 1;
    states, steps := Settles(nodes, s, Ends(s), base, Measure(base, nodes, s));
  }

  // With one connection between any two nodes all paths are shortest then.
  lemma SoleReachesShortest(nodes: set<NodeId>, s: Net) returns (states: seq<Net>, steps: seq<Step>)
    requires SoleInv(nodes, s) && Synchronized(s)
    ensures Steps(nodes, states, steps) && forall i :: 0 <= i < |steps| ==> SettlesAt(states, steps, i)
    ensures states[0] == s && Settled(nodes, states[|steps|])
  {
    states, steps := ReachesQuiet(nodes, s);
    forall i | 0 <= i < |steps| ensures SoleAt(states, steps, i) {
      assert SettlesAt(states, steps, i);
    }
    SoleStepsKeep(nodes, states, steps, |steps|);
  }
}
