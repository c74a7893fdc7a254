/** Reading comes to an end in every run: what is unread, and what nodes hold, weighs less after every step that reads.
    */
module Termination {
  import opened Nodes
  import opened Wrappers
  import opened RoutingSpec
  import opened Network
  import opened LoopFreedom
  import opened Sums

  function Pow(b: nat, n: nat): (p: nat)
    ensures b > 0 ==> p > 0
  {
    if n == 0 then 1
    else if b == 0 then 0
    else
      Times(b, Pow(b, n - 1));
      b * Pow(b, n - 1)
  }

  lemma Times(b: nat, p: nat)
    requires b > 0
    ensures b * p >= p
  {
  }

  // The weight of a path: longer ones are lighter, and so many of them that all connections can carry one weigh less
  // than a path that is one shorter.  `size` is the number of nodes; no path is as long, so that is the weight of
  // none.
  function PathWeight(base: nat, size: nat, p: Option<Path>): nat {
    if p.Some? && |p.value| < size then Pow(base, size - |p.value|) else 1
  }

  // A path that is unread can be taken up and given up again.
  function MessageWeight(base: nat, size: nat, m: Message): nat {
    match m
    case Hello => 2 * size * Pow(base, size) + 1
    case RouteMsg(a) => 2 * PathWeight(base, size, a.path)
  }

  function QueueWeight(base: nat, size: nat, q: seq<Message>): nat {
    if q == [] then 0 else QueueWeight(base, size, q[..|q| - 1]) + MessageWeight(base, size, q[|q| - 1])
  }

  lemma {:induction false} QueueWeightAppend(base: nat, size: nat, q: seq<Message>, w: seq<Message>)
    ensures QueueWeight(base, size, q + w) == QueueWeight(base, size, q) + QueueWeight(base, size, w)
    decreases |w|
  {
    if w == [] {
      assert q + w == q;
    } else {
      assert (q + w)[..|q + w| - 1] == q + w[..|w| - 1];
      QueueWeightAppend(base, size, q, w[..|w| - 1]);
    }
  }

  lemma QueueWeightTail(base: nat, size: nat, q: seq<Message>)
    requires q != []
    ensures QueueWeight(base, size, q) == MessageWeight(base, size, q[0]) + QueueWeight(base, size, q[1..])
  {
    assert q == [q[0]] + q[1..] && [q[0]][..0] == [];
    QueueWeightAppend(base, size, [q[0]], q[1..]);
  }

  function Held(base: nat, size: nat, p: Option<Path>): nat {
    if p.None? then 0 else PathWeight(base, size, p)
  }

  ghost function TableWeight(base: nat, size: nat, t: Table): nat {
    Sum(t.entries.Keys, (k: (NodeId, NodeId)) => Held(base, size, Entry(t, k.0, k.1)))
  }

  // The ends at which something is unread, and those at which a connection waits to be accepted.
  function Unread(s: Net): set<End> {
    set f | f in s.inboxes && Inbox(s, f) != []
  }

  function Waiting(s: Net): set<End> {
    set f | f in s.inboxes && Pending(s, f)
  }

  function Ends(s: Net): nat {
    |s.open| + 2 * |Waiting(s)|
  }

  ghost function UnreadWeight(base: nat, size: nat, s: Net): nat {
    Sum(Unread(s), (f: End) => QueueWeight(base, size, Inbox(s, f)))
  }

  ghost function HeldWeight(base: nat, nodes: set<NodeId>, s: Net): nat {
    Sum(nodes, (n: NodeId) => TableWeight(base, |nodes|, Tab(s, n)))
  }

  ghost function Measure(base: nat, nodes: set<NodeId>, s: Net): nat {
    UnreadWeight(base, |nodes|, s) + HeldWeight(base, nodes, s) + |Waiting(s)|
  }

  // More ends may be added at which nothing is unread.
  lemma UnreadWeightOver(base: nat, size: nat, s: Net, S: set<End>)
    requires Unread(s) <= S
    ensures UnreadWeight(base, size, s) == Sum(S, (f: End) => QueueWeight(base, size, Inbox(s, f)))
  {
    SumOver(Unread(s), S, (f: End) => QueueWeight(base, size, Inbox(s, f)));
  }

  lemma SumSame<T(!new)>(S: set<T>, f: T -> nat, g: T -> nat)
    requires forall x :: x in S ==> f(x) == g(x)
    ensures Sum(S, f) == Sum(S, g)
  {
    SumGrowsOn(S, {}, f, g, 0);
    SumGrowsOn(S, {}, g, f, 0);
  }

  lemma {:induction false} PowGrows(b: nat, m: nat, n: nat)
    requires b > 0 && m <= n
    ensures Pow(b, m) <= Pow(b, n)
  {
    if m < n {
      PowGrows(b, m, n - 1);
      Times(b, Pow(b, n - 1));
    }
  }

  // A node that announces a path takes it up with one more hop.
  lemma OneHopMore(base: nat, size: nat, p: Path, q: Path)
    requires base > 0 && |q| + 1 == |p| < size
    ensures base * PathWeight(base, size, Some(p)) == PathWeight(base, size, Some(q))
  {
  }

  lemma ShorterIsHeavier(base: nat, size: nat, p: Path, q: Path)
    requires base > 0 && |p| <= |q| < size
    ensures PathWeight(base, size, Some(q)) <= PathWeight(base, size, Some(p))
  {
    PowGrows(base, size - |q|, size - |p|);
  }

  lemma HeldIsHeavy(base: nat, size: nat, p: Path)
    requires base > 0 && |p| < size
    ensures base <= PathWeight(base, size, Some(p))
  {
    assert Pow(base, 0) == 1 && Pow(base, 1) == base;
    PowGrows(base, 1, size - |p|);
  }

  lemma EntryIsShort(nodes: set<NodeId>, n: NodeId, t: Table, r: NodeId, u: NodeId)
    requires GoodEntries(nodes, n, t) && Entry(t, r, u).Some?
    ensures r in nodes && |Entry(t, r, u).value| + 2 <= |nodes|
  {
    NoDupCount(Entry(t, r, u).value, nodes - {n} - {r});
  }

  // What a node announces is lighter than what made it change its mind: what it has read, or what it held before.
  lemma ReactionIsLight(base: nat, nodes: set<NodeId>, n: NodeId, t: Table, u: NodeId, r: NodeId, p: Option<Path>,
                        t': Table)
    requires base > 0 && TableInv(t) && GoodEntries(nodes, n, t) && GoodEntries(nodes, n, t')
    requires Update(n, t, u, r, p, t', true) && (p.Some? ==> |p.value| < |nodes|)
    ensures base * PathWeight(base, |nodes|, Payload(n, t', r))
            <= PathWeight(base, |nodes|, p) + Held(base, |nodes|, Entry(t, r, u))
  {
    var size := |nodes|;
    assert Selected(t, Chosen(t, r), r) && Selected(t', Chosen(t, r), r) && Entry(t', r, u) == Clean(n, p);
    assert forall v :: v != u ==> Entry(t', r, v) == Entry(t, r, v);
    match Best(t', r) {
      case None =>
        EntryIsShort(nodes, n, t, r, u);
        HeldIsHeavy(base, size, Entry(t, r, u).value);
      case Some(b) =>
        EntryIsShort(nodes, n, t', r, b.via);
        OneHopMore(base, size, [n] + b.path, b.path);
        if b.via != u {
          EntryIsShort(nodes, n, t, r, u);
          ShorterIsHeavier(base, size, Entry(t, r, u).value, b.path);
        }
    }
  }

  lemma UpdateWeight(base: nat, size: nat, n: NodeId, t: Table, u: NodeId, r: NodeId, p: Option<Path>, t': Table,
                     changed: bool)
    requires Update(n, t, u, r, p, t', changed) && r != n && u != n
    ensures TableWeight(base, size, t') + Held(base, size, Entry(t, r, u))
            == TableWeight(base, size, t) + Held(base, size, Clean(n, p))
  {
    var f := (k: (NodeId, NodeId)) => Held(base, size, Entry(t, k.0, k.1));
    var g := (k: (NodeId, NodeId)) => Held(base, size, Entry(t', k.0, k.1));
    var S := t.entries.Keys + t'.entries.Keys + {(r, u)};
    SumOver(t.entries.Keys, S, f);
    SumOver(t'.entries.Keys, S, g);
    SumPick(S, f, (r, u));
    SumPick(S, g, (r, u));
    forall k | k in S - {(r, u)} ensures f(k) == g(k) {
      assert k == (k.0, k.1) && Entry(t', k.0, k.1) == Entry(t, k.0, k.1);
    }
    SumSame(S - {(r, u)}, f, g);
  }

  lemma HeldWeightOfOne(base: nat, nodes: set<NodeId>, s: Net, s': Net, n: NodeId)
    requires n in nodes && SameTablesBut(s, s', n)
    ensures HeldWeight(base, nodes, s') + TableWeight(base, |nodes|, Tab(s, n))
            == HeldWeight(base, nodes, s) + TableWeight(base, |nodes|, Tab(s', n))
  {
    var f := (m: NodeId) => TableWeight(base, |nodes|, Tab(s, m));
    var g := (m: NodeId) => TableWeight(base, |nodes|, Tab(s', m));
    SumPick(nodes, f, n);
    SumPick(nodes, g, n);
    SumSame(nodes - {n}, f, g);
  }

  lemma {:induction false} OthersCount(A: set<End>, open: set<End>)
    requires forall f :: f in A ==> Other(f) in open
    ensures |A| <= |open|
    decreases |A|
  {
    if A != {} {
      var f :| f in A;
      forall g | g in A - {f} ensures Other(g) in open - {Other(f)} {
        assert Other(g) == Other(f) ==> g == f;
      }
      OthersCount(A - {f}, open - {Other(f)});
    }
  }

  lemma WaitingShrinks(nodes: set<NodeId>, s: Net, step: Step, s': Net)
    requires LoopFree(nodes, s) && Next(nodes, s, step, s') && !step.Connect? && !step.GreetBack?
    ensures Waiting(s') <= Waiting(s) && (step.Accept? ==> step.e in Waiting(s) && step.e !in Waiting(s'))
  {
    forall f | Pending(s', f) ensures Pending(s, f) {
      assert GoodInbox(nodes, s, f);
    }
  }

  // What reading at `e`, and writing `w` for the ends of `A`, does to what is unread.
  lemma UnreadChange(base: nat, size: nat, s: Net, s': Net, e: End, A: set<End>, w: seq<Message>)
    requires Inbox(s, e) != [] && Inbox(s', e) == Inbox(s, e)[1..] && e !in A
    requires forall f :: f != e ==> Inbox(s', f) == if f in A then Inbox(s, f) + w else Inbox(s, f)
    ensures UnreadWeight(base, size, s') + MessageWeight(base, size, Inbox(s, e)[0])
            <= UnreadWeight(base, size, s) + |A| * QueueWeight(base, size, w)
  {
    var f := (x: End) => QueueWeight(base, size, Inbox(s, x));
    var g := (x: End) => QueueWeight(base, size, Inbox(s', x));
    var S := Unread(s) + Unread(s') + {e} + A;
    UnreadWeightOver(base, size, s, S);
    UnreadWeightOver(base, size, s', S);
    SumPick(S, f, e);
    SumPick(S, g, e);
    QueueWeightTail(base, size, Inbox(s, e));
    forall x | x in S - {e} ensures g(x) <= f(x) + if x in A then QueueWeight(base, size, w) else 0 {
      QueueWeightAppend(base, size, Inbox(s, x), w);
    }
    SumGrowsOn(S - {e}, A, f, g, QueueWeight(base, size, w));
  }

  lemma Once(a: nat, b: nat)
    requires a == 1
    ensures a * b == b
  {
  }

  lemma UnreadChangeOne(base: nat, size: nat, s: Net, s': Net, e: End, h: End, w: seq<Message>)
    requires Inbox(s, e) != [] && Inbox(s', e) == Inbox(s, e)[1..] && e != h
    requires forall f :: f != e ==> Inbox(s', f) == if f == h then Inbox(s, f) + w else Inbox(s, f)
    ensures UnreadWeight(base, size, s') + MessageWeight(base, size, Inbox(s, e)[0])
            <= UnreadWeight(base, size, s) + QueueWeight(base, size, w)
  {
    UnreadChange(base, size, s, s', e, {h}, w);
    Once(|{h}|, QueueWeight(base, size, w));
  }

  // `a` connections, each of which carries a message of weight `2 * r`.
  lemma ManyAreLight(base: nat, a: nat, open: nat, r: nat)
    requires base > 2 * open && a <= open && r > 0
    ensures a * (2 * r) < base * r
  {
    assert a * (2 * r) == (2 * a) * r;
    assert (base - 2 * a) * r > 0 && base * r == (2 * a) * r + (base - 2 * a) * r;
  }

  lemma ReactionWeight(base: nat, size: nat, a: Announcement)
    ensures QueueWeight(base, size, Wrap([a])) == 2 * PathWeight(base, size, a.path) && Wrap([]) == []
  {
    assert Wrap([a]) == [RouteMsg(a)] && [RouteMsg(a)][..0] == [];
  }

  ghost function Written(s: Net, s': Net, n: NodeId): set<End> {
    set f | f in Unread(s) + Unread(s') && WrittenBy(s, n, f)
  }

  lemma PathWeightIsPositive(base: nat, size: nat, p: Option<Path>)
    requires base > 0
    ensures PathWeight(base, size, p) > 0
  {
  }

  lemma DeliverSpread(base: nat, nodes: set<NodeId>, s: Net, e: End, changed: bool, s': Net) returns (A: set<End>)
    requires LoopFree(nodes, s) && DeliverStep(s, e, changed, s')
    ensures |A| <= |s.open|
    ensures UnreadWeight(base, |nodes|, s') + MessageWeight(base, |nodes|, Inbox(s, e)[0])
            <= UnreadWeight(base, |nodes|, s)
               + |A| * QueueWeight(base, |nodes|,
                                   Wrap(Reaction(e.node, Tab(s', e.node), Inbox(s, e)[0].a.recipient, changed)))
  {
    var w := Wrap(Reaction(e.node, Tab(s', e.node), Inbox(s, e)[0].a.recipient, changed));
    A := Written(s, s', e.node);
    assert GoodEnd(nodes, e);
    forall f | f != e ensures Inbox(s', f) == if f in A then Inbox(s, f) + w else Inbox(s, f) {
      assert Inbox(s, f) + [] == Inbox(s, f);
    }
    UnreadChange(base, |nodes|, s, s', e, A, w);
    OthersCount(A, s.open);
  }

  // All that a node writes when it changes its mind.
  lemma SpreadIsLight(base: nat, size: nat, a: nat, open: nat, m: Announcement)
    requires base > 2 * open && a <= open
    ensures a * QueueWeight(base, size, Wrap([m])) < base * PathWeight(base, size, m.path)
  {
    ReactionWeight(base, size, m);
    PathWeightIsPositive(base, size, m.path);
    ManyAreLight(base, a, open, PathWeight(base, size, m.path));
  }

  lemma DeliverUnread(base: nat, nodes: set<NodeId>, s: Net, e: End, changed: bool, s': Net) returns (gain: nat)
    requires LoopFree(nodes, s) && DeliverStep(s, e, changed, s') && base > 2 * |s.open|
    ensures UnreadWeight(base, |nodes|, s') + MessageWeight(base, |nodes|, Inbox(s, e)[0])
            <= UnreadWeight(base, |nodes|, s) + gain
    ensures var r := Inbox(s, e)[0].a.recipient;
            if changed then gain < base * PathWeight(base, |nodes|, Payload(e.node, Tab(s', e.node), r)) else gain == 0
  {
    var r := Inbox(s, e)[0].a.recipient;
    var A := DeliverSpread(base, nodes, s, e, changed, s');
    gain := |A| * QueueWeight(base, |nodes|, Wrap(Reaction(e.node, Tab(s', e.node), r, changed)));
    if changed {
      SpreadIsLight(base, |nodes|, |A|, |s.open|, Announcement(r, Payload(e.node, Tab(s', e.node), r)));
    }
  }

  lemma DeliverHeld(base: nat, nodes: set<NodeId>, s: Net, e: End, changed: bool, s': Net) returns (lost: nat)
    requires LoopFree(nodes, s) && DeliverStep(s, e, changed, s') && base > 0
    ensures var a := Inbox(s, e)[0].a;
            && HeldWeight(base, nodes, s') + lost <= HeldWeight(base, nodes, s) + PathWeight(base, |nodes|, a.path)
            && (changed ==> base * PathWeight(base, |nodes|, Payload(e.node, Tab(s', e.node), a.recipient))
                            <= PathWeight(base, |nodes|, a.path) + lost)
  {
    var n, a := e.node, Inbox(s, e)[0].a;
    var t, t' := Tab(s, n), Tab(s', n);
    DeliverKeepsTable(nodes, s, e, changed, s');
    assert GoodInbox(nodes, s, e) && RouteMsg(a) in Inbox(s, e) && GoodEntries(nodes, n, t) && TableInv(t);
    HeldWeightOfOne(base, nodes, s, s', n);
    lost := 0;
    if a.recipient != n {
      lost := Held(base, |nodes|, Entry(t, a.recipient, e.peer));
      UpdateWeight(base, |nodes|, n, t, e.peer, a.recipient, a.path, t', changed);
      if a.path.Some? {
        NoDupCount(a.path.value, nodes - {a.recipient});
      }
      if changed {
        ReactionIsLight(base, nodes, n, t, e.peer, a.recipient, a.path, t');
      }
    }
  }

  lemma DeliverFalls(base: nat, nodes: set<NodeId>, s: Net, e: End, changed: bool, s': Net)
    requires LoopFree(nodes, s) && DeliverStep(s, e, changed, s') && base > 2 * |s.open|
    ensures Measure(base, nodes, s') < Measure(base, nodes, s)
  {
    var gain := DeliverUnread(base, nodes, s, e, changed, s');
    var lost := DeliverHeld(base, nodes, s, e, changed, s');
    WaitingShrinks(nodes, s, Deliver(e, changed), s');
    SubsetCount(Waiting(s'), Waiting(s));
    PathWeightIsPositive(base, |nodes|, Inbox(s, e)[0].a.path);
  }

  lemma DumpIsShort(nodes: set<NodeId>, n: NodeId, t: Table, out: seq<Announcement>)
    requires n in nodes && TableInv(t) && GoodEntries(nodes, n, t) && Dump(n, t, out)
    ensures |out| <= |nodes|
  {
    var ids := seq(|out|, i requires 0 <= i < |out| => out[i].recipient);
    forall x | x in ids ensures x in nodes {
      var i :| 0 <= i < |out| && ids[i] == x;
      assert out[i] in out;
      PayloadIsGood(nodes, n, t, x);
    }
    NoDupCount(ids, nodes);
  }

  lemma {:induction false} BatchWeight(base: nat, size: nat, out: seq<Announcement>)
    requires base > 0
    ensures QueueWeight(base, size, Wrap(out)) <= 2 * (|out| * Pow(base, size))
  {
    if out != [] {
      var front, a := out[..|out| - 1], out[|out| - 1];
      assert Wrap(out)[..|out| - 1] == Wrap(front);
      BatchWeight(base, size, front);
      if a.path.Some? && |a.path.value| < size {
        PowGrows(base, size - |a.path.value|, size);
      }
      OneMoreTimes(|front|, Pow(base, size));
    }
  }

  lemma MoreTimes(a: nat, b: nat, c: nat)
    requires a <= b
    ensures 2 * (a * c) <= 2 * b * c
  {
  }

  lemma GreetingIsHeavier(base: nat, nodes: set<NodeId>, n: NodeId, t: Table, out: seq<Announcement>)
    requires n in nodes && TableInv(t) && GoodEntries(nodes, n, t) && Dump(n, t, out) && base > 0
    ensures QueueWeight(base, |nodes|, Wrap(out)) < MessageWeight(base, |nodes|, Hello)
  {
    DumpIsShort(nodes, n, t, out);
    BatchWeight(base, |nodes|, out);
    MoreTimes(|out|, |nodes|, Pow(base, |nodes|));
  }

  lemma GreetUnread(base: nat, size: nat, nodes: set<NodeId>, s: Net, e: End, out: seq<Announcement>, s': Net)
    requires LoopFree(nodes, s) && GreetStep(s, e, out, s')
    ensures UnreadWeight(base, size, s') + MessageWeight(base, size, Hello)
            <= UnreadWeight(base, size, s) + QueueWeight(base, size, Wrap(out))
  {
    assert GoodEnd(nodes, e);
    UnreadChangeOne(base, size, s, s', e, Other(e), Wrap(out));
  }

  lemma GreetFalls(base: nat, nodes: set<NodeId>, s: Net, e: End, out: seq<Announcement>, s': Net)
    requires LoopFree(nodes, s) && GreetStep(s, e, out, s') && base > 0
    ensures Measure(base, nodes, s') < Measure(base, nodes, s)
  {
    assert GoodEnd(nodes, e) && TableInv(Tab(s, e.node)) && GoodEntries(nodes, e.node, Tab(s, e.node));
    GreetUnread(base, |nodes|, nodes, s, e, out, s');
    GreetingIsHeavier(base, nodes, e.node, Tab(s, e.node), out);
    HeldWeightOfOne(base, nodes, s, s', e.node);
    WaitingShrinks(nodes, s, Greet(e, out), s');
    SubsetCount(Waiting(s'), Waiting(s));
  }

  lemma AcceptFalls(base: nat, nodes: set<NodeId>, s: Net, e: End, s': Net)
    requires LoopFree(nodes, s) && AcceptStep(s, e, s')
    ensures Measure(base, nodes, s') < Measure(base, nodes, s)
  {
    var size, S := |nodes|, Unread(s) + Unread(s');
    UnreadWeightOver(base, size, s, S);
    UnreadWeightOver(base, size, s', S);
    SumSame(S, (f: End) => QueueWeight(base, size, Inbox(s, f)), (f: End) => QueueWeight(base, size, Inbox(s', f)));
    SumSame(nodes, (n: NodeId) => TableWeight(base, size, Tab(s, n)),
            (n: NodeId) => TableWeight(base, size, Tab(s', n)));
    WaitingShrinks(nodes, s, Accept(e), s');
    SubsetCount(Waiting(s'), Waiting(s) - {e});
  }

  predicate IsReading(step: Step) {
    step.Accept? || step.Greet? || step.Deliver?
  }

  // Each step that neither opens nor closes a connection makes the measure smaller, whatever closes, drops and
  // departures came before, and the number of ends does not grow.
  lemma ReadingFalls(base: nat, nodes: set<NodeId>, s: Net, step: Step, s': Net)
    requires LoopFree(nodes, s) && Next(nodes, s, step, s') && IsReading(step) && base > 2 * Ends(s)
    ensures Measure(base, nodes, s') < Measure(base, nodes, s) && Ends(s') <= Ends(s)
  {
    WaitingShrinks(nodes, s, step, s');
    match step {
      case Accept(e) =>
        AcceptFalls(base, nodes, s, e, s');
        SubsetCount(Waiting(s'), Waiting(s) - {e});
      case Greet(e, out) =>
        GreetFalls(base, nodes, s, e, out, s');
        SubsetCount(Waiting(s'), Waiting(s));
      case Deliver(e, changed) =>
        DeliverFalls(base, nodes, s, e, changed, s');
        SubsetCount(Waiting(s'), Waiting(s));
    }
  }

  predicate ReadsAt(steps: seq<Step>, i: nat)
    requires i < |steps|
  {
    IsReading(steps[i])
  }

  lemma ReadingStep(base: nat, nodes: set<NodeId>, states: seq<Net>, steps: seq<Step>, k: nat)
    requires Steps(nodes, states, steps) && k < |steps| && ReadsAt(steps, k)
    requires LoopFree(nodes, states[0]) && base > 2 * Ends(states[k])
    ensures Measure(base, nodes, states[k + 1]) < Measure(base, nodes, states[k])
            && Ends(states[k + 1]) <= Ends(states[k])
  {
    StepsKeepLoopFree(nodes, states, steps, k);
    assert StepAt(nodes, states, steps, k);
    ReadingFalls(base, nodes, states[k], steps[k], states[k + 1]);
  }

  // All steps only read.
  ghost predicate ReadsOn(steps: seq<Step>) {
    forall i :: 0 <= i < |steps| ==> ReadsAt(steps, i)
  }

  lemma EndsStep(nodes: set<NodeId>, states: seq<Net>, steps: seq<Step>, k: nat)
    requires Steps(nodes, states, steps) && LoopFree(nodes, states[0]) && k < |steps| && ReadsOn(steps)
    ensures Ends(states[k + 1]) <= Ends(states[k])
  {
    assert ReadsAt(steps, k);
    ReadingStep(2 * Ends(states[k]) + 1, nodes, states, steps, k);
  }

  lemma {:induction false} EndsShrink(nodes: set<NodeId>, states: seq<Net>, steps: seq<Step>, k: nat)
    requires Steps(nodes, states, steps) && LoopFree(nodes, states[0]) && k <= |steps| && ReadsOn(steps)
    ensures Ends(states[k]) <= Ends(states[0])
  {
    if k > 0 {
      EndsShrink(nodes, states, steps, k - 1);
      EndsStep(nodes, states, steps, k - 1);
    }
  }

  lemma MeasureStep(base: nat, nodes: set<NodeId>, states: seq<Net>, steps: seq<Step>, k: nat)
    requires Steps(nodes, states, steps) && LoopFree(nodes, states[0]) && k < |steps| && ReadsOn(steps)
    requires base > 2 * Ends(states[0])
    ensures Measure(base, nodes, states[k + 1]) < Measure(base, nodes, states[k])
  {
    EndsShrink(nodes, states, steps, k);
    assert ReadsAt(steps, k);
    ReadingStep(base, nodes, states, steps, k);
  }

  // So no run can go on reading for more than `Measure` steps, whatever came before and in whatever order it reads.
  lemma {:induction false} ReadingEnds(base: nat, nodes: set<NodeId>, states: seq<Net>, steps: seq<Step>, k: nat)
    requires Steps(nodes, states, steps) && LoopFree(nodes, states[0]) && k <= |steps| && base > 2 * Ends(states[0])
    requires ReadsOn(steps)
    ensures k + Measure(base, nodes, states[k]) <= Measure(base, nodes, states[0])
  {
    if k > 0 {
      ReadingEnds(base, nodes, states, steps, k - 1);
      MeasureStep(base, nodes, states, steps, k - 1);
    }
  }
}
