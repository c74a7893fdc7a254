/** A network of nodes that all run routing.c, joined by first-in first-out channels.

    Two nodes may have several connections at a time.  A connection is opened by one end, which at once writes its
    greeting (the ENTRY, PRED or CHORD message) and its shortest paths; the other end accepts the connection and, on
    reading the greeting, writes its own shortest paths, or opens a second connection and writes them there, as a node
    does that is alone in its ring (ring.c:399-427).  Either end may close its side at any time; the other keeps
    reading what was already written until it closes its own. */
module Network {
  import opened Nodes
  import opened Wrappers
  import opened RoutingSpec

  datatype Message = Hello | RouteMsg(a: Announcement)

  // The end at `node` of the connection to `peer` with number `k`.
  datatype End = End(node: NodeId, peer: NodeId, k: nat)

  function Other(e: End): End {
    End(e.peer, e.node, e.k)
  }

  // `open` holds the ends that are open; `inboxes` maps an end to what was written for it and not read.
  datatype Net = Net(tables: map<NodeId, Table>, open: set<End>, inboxes: map<End, seq<Message>>)

  function Tab(s: Net, n: NodeId): Table {
    if n in s.tables then s.tables[n] else EMPTY_TABLE
  }

  function Inbox(s: Net, f: End): seq<Message> {
    if f in s.inboxes then s.inboxes[f] else []
  }

  function Wrap(out: seq<Announcement>): (w: seq<Message>)
    ensures |w| == |out| && forall i :: 0 <= i < |out| ==> w[i] == RouteMsg(out[i])
  {
    seq(|out|, i requires 0 <= i < |out| => RouteMsg(out[i]))
  }

  predicate StartsWithHello(q: seq<Message>) {
    q != [] && q[0] == Hello
  }

  // The connection was opened at the other end and not accepted at `f` yet.
  predicate Pending(s: Net, f: End) {
    f !in s.open && StartsWithHello(Inbox(s, f))
  }

  // What was written for `f` is read, now or once the connection has been accepted.
  predicate Readable(s: Net, f: End) {
    f in s.open || Pending(s, f)
  }

  // Node `f.node` knows which node is at the other end.
  predicate Introduced(s: Net, f: End) {
    f in s.open && !StartsWithHello(Inbox(s, f))
  }

  // What `u` writes to `n` is read at end `f`.
  predicate Joins(f: End, u: NodeId, n: NodeId) {
    f.node == n && f.peer == u
  }

  predicate SameNodes(f: End, g: End) {
    f.node == g.node && f.peer == g.peer
  }

  // find_connection_by_node_id still finds a connection to the same node once `f` is closed.
  ghost predicate KnownOtherwise(s: Net, f: End) {
    exists g :: g != f && SameNodes(f, g) && Introduced(s, g)
  }

  // The ROUTE branches of handle_message_from_any_node: node `self` reads `a` from neighbour `u`.
  ghost predicate ReceiveRoute(self: NodeId, t: Table, u: NodeId, a: Announcement, t': Table, changed: bool) {
    match a.path
    case Some(p) =>
      // Hops between a node and itself, or none between different nodes: ignored.
      if (u == a.recipient) != (p == []) then t' == t && !changed
      else Update(self, t, u, a.recipient, a.path, t', changed)
    case None =>
      if a.recipient == self then t' == t && !changed
      else Update(self, t, u, a.recipient, None, t', changed)
  }

  function Reaction(self: NodeId, t: Table, r: NodeId, changed: bool): seq<Announcement> {
    if changed then [Announcement(r, Payload(self, t, r))] else []
  }

  // What is left to chance in a step: the order of a table dump, the order of the announcements of a removal.
  //
  // `Close` is a close followed by remove_neighbor_connection, `Drop` one without.  A node that leaves the ring closes
  // everything; `cleared` is whether it clears its table before it is in a ring again.
  datatype Step =
    | Connect(e: End, out: seq<Announcement>)
    | Accept(e: End)
    | Greet(e: End, out: seq<Announcement>)
    | GreetBack(e: End, f: End, out: seq<Announcement>)
    | Deliver(e: End, changed: bool)
    | Close(e: End, out: seq<Announcement>)
    | Drop(e: End)
    | Leave(n: NodeId, cleared: bool)

  ghost predicate Init(s: Net) {
    && (forall n :: Tab(s, n) == EMPTY_TABLE)
    && s.open == {}
    && (forall f :: Inbox(s, f) == [])
  }

  ghost predicate SameTables(s: Net, s': Net) {
    forall n :: Tab(s', n) == Tab(s, n)
  }

  ghost predicate SameTablesBut(s: Net, s': Net, n: NodeId) {
    forall m :: m != n ==> Tab(s', m) == Tab(s, m)
  }

  predicate InUse(s: Net, e: End) {
    Readable(s, e) || Readable(s, Other(e))
  }

  ghost predicate ConnectStep(nodes: set<NodeId>, s: Net, e: End, out: seq<Announcement>, s': Net) {
    && e.node in nodes && e.peer in nodes && e.node != e.peer && !InUse(s, e)
    && Dump(e.node, Tab(s, e.node), out)
    && s'.open == s.open + {e}
    && SameTables(s, s')
    && (forall f :: Inbox(s', f) ==
                    if f == Other(e) then [Hello] + Wrap(out) else if f == e then [] else Inbox(s, f))
  }

  ghost predicate AcceptStep(s: Net, e: End, s': Net) {
    && Pending(s, e)
    && s'.open == s.open + {e}
    && SameTables(s, s')
    && (forall f :: Inbox(s', f) == Inbox(s, f))
  }

  ghost predicate GreetStep(s: Net, e: End, out: seq<Announcement>, s': Net) {
    && e in s.open && StartsWithHello(Inbox(s, e))
    && Dump(e.node, Tab(s, e.node), out)
    && s'.open == s.open
    && SameTables(s, s')
    && (forall f :: Inbox(s', f) == if f == e then Inbox(s, f)[1..]
                                    else if f == Other(e) then Inbox(s, f) + Wrap(out) else Inbox(s, f))
  }

  // The greeting at `e` is answered on a new connection to the same node, opened at `f`.
  ghost predicate GreetBackStep(s: Net, e: End, f: End, out: seq<Announcement>, s': Net) {
    && e in s.open && StartsWithHello(Inbox(s, e))
    && SameNodes(f, e) && f != e && !InUse(s, f)
    && Dump(e.node, Tab(s, e.node), out)
    && s'.open == s.open + {f}
    && SameTables(s, s')
    && (forall g :: Inbox(s', g) == if g == e then Inbox(s, g)[1..]
                                    else if g == Other(f) then [Hello] + Wrap(out)
                                    else if g == f then [] else Inbox(s, g))
  }

  // What node `n` writes on all its connections arrives at the ends of `s` whose other end it has open.
  predicate WrittenBy(s: Net, n: NodeId, f: End) {
    f.peer == n && Other(f) in s.open
  }

  ghost predicate DeliverStep(s: Net, e: End, changed: bool, s': Net) {
    && e in s.open && Inbox(s, e) != [] && Inbox(s, e)[0].RouteMsg?
    && var a := Inbox(s, e)[0].a;
    && ReceiveRoute(e.node, Tab(s, e.node), e.peer, a, Tab(s', e.node), changed)
    && SameTablesBut(s, s', e.node)
    && s'.open == s.open
    && (forall f :: Inbox(s', f) ==
                    if f == e then Inbox(s, f)[1..]
                    else if WrittenBy(s, e.node, f)
                    then Inbox(s, f) + Wrap(Reaction(e.node, Tab(s', e.node), a.recipient, changed)) else Inbox(s, f))
  }

  // remove_neighbor_connection, after end `e` was closed, changes the table of its node from `t` to `t'`.
  ghost predicate RemovesColumn(s: Net, e: End, t': Table, out: seq<Announcement>) {
    if Introduced(s, e) && !KnownOtherwise(s, e) then Removal(e.node, Tab(s, e.node), e.peer, t', out)
    else t' == Tab(s, e.node) && out == []
  }

  ghost predicate CloseStep(s: Net, e: End, out: seq<Announcement>, s': Net) {
    && e in s.open
    && RemovesColumn(s, e, Tab(s', e.node), out)
    && SameTablesBut(s, s', e.node)
    && s'.open == s.open - {e}
    && (forall f :: Inbox(s', f) == if f == e then []
                                    else if WrittenBy(s', e.node, f) then Inbox(s, f) + Wrap(out) else Inbox(s, f))
  }

  ghost predicate DropStep(s: Net, e: End, s': Net) {
    && e in s.open
    && SameTables(s, s')
    && s'.open == s.open - {e}
    && (forall f :: Inbox(s', f) == if f == e then [] else Inbox(s, f))
  }

  ghost predicate LeaveStep(s: Net, n: NodeId, cleared: bool, s': Net) {
    && (forall m :: Tab(s', m) == if m == n && cleared then EMPTY_TABLE else Tab(s, m))
    && (forall f :: f in s'.open <==> f in s.open && f.node != n)
    && (forall f :: Inbox(s', f) == if f.node == n && f in s.open then [] else Inbox(s, f))
  }

  ghost predicate Next(nodes: set<NodeId>, s: Net, step: Step, s': Net) {
    match step
    case Connect(e, out) => ConnectStep(nodes, s, e, out, s')
    case Accept(e) => AcceptStep(s, e, s')
    case Greet(e, out) => GreetStep(s, e, out, s')
    case GreetBack(e, f, out) => GreetBackStep(s, e, f, out, s')
    case Deliver(e, changed) => DeliverStep(s, e, changed, s')
    case Close(e, out) => CloseStep(s, e, out, s')
    case Drop(e) => DropStep(s, e, s')
    case Leave(n, cleared) => LeaveStep(s, n, cleared, s')
  }

  // In a run `states[i]` becomes `states[i+1]` by `steps[i]`.
  ghost predicate StepAt(nodes: set<NodeId>, states: seq<Net>, steps: seq<Step>, i: nat)
    requires |states| == |steps| + 1 && i < |steps|
  {
    Next(nodes, states[i], steps[i], states[i + 1])
  }

  ghost predicate Steps(nodes: set<NodeId>, states: seq<Net>, steps: seq<Step>) {
    && |states| == |steps| + 1
    && forall i :: 0 <= i < |steps| ==> StepAt(nodes, states, steps, i)
  }

  ghost predicate Run(nodes: set<NodeId>, states: seq<Net>, steps: seq<Step>) {
    Steps(nodes, states, steps) && Init(states[0])
  }

  lemma StepLater(nodes: set<NodeId>, s: Net, step: Step, states: seq<Net>, steps: seq<Step>, i: nat)
    requires |states| == |steps| + 1 && i < |steps| && StepAt(nodes, states, steps, i)
    ensures StepAt(nodes, [s] + states, [step] + steps, i + 1)
  {
    var states', steps' := [s] + states, [step] + steps;
    assert states'[i + 1] == states[i] && states'[i + 2] == states[i + 1] && steps'[i + 1] == steps[i];
  }

  lemma StepsPrepend(nodes: set<NodeId>, s: Net, step: Step, states: seq<Net>, steps: seq<Step>)
    requires Steps(nodes, states, steps) && Next(nodes, s, step, states[0])
    ensures Steps(nodes, [s] + states, [step] + steps)
  {
    var states', steps' := [s] + states, [step] + steps;
    assert states'[0] == s && states'[1] == states[0] && steps'[0] == step;
    assert StepAt(nodes, states', steps', 0);
    forall i | 0 < i < |steps'| ensures StepAt(nodes, states', steps', i) {
      StepLater(nodes, s, step, states, steps, i - 1);
    }
  }

  lemma RunExtends(nodes: set<NodeId>, states: seq<Net>, steps: seq<Step>, step: Step, s': Net)
    requires Run(nodes, states, steps) && Next(nodes, states[|steps|], step, s')
    ensures Run(nodes, states + [s'], steps + [step])
  {
    forall i | 0 <= i < |steps + [step]| ensures StepAt(nodes, states + [s'], steps + [step], i) {
      if i < |steps| {
        assert StepAt(nodes, states, steps, i);
      }
    }
  }
}
