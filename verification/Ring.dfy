/** ring.c: what one node does with the ENTRY, SUCC and PRED messages and with connections that break.

    A connection is named by the node that opened it and the node it was opened to. */
module Ring {
  import opened Nodes
  import opened Wrappers

  datatype ConnectionState = DISCONNECTED | CONNECTING | CONNECTED

  datatype Conn = Conn(opener: NodeId, acceptor: NodeId)

  datatype Message = Entry(id: NodeId) | Succ(id: NodeId) | Pred(id: NodeId) | EndOfFile

  // `timer` is whether the timeout for the predecessor is running; `joinEnds` counts the calls of on_join_end.
  datatype Peer = Peer(
    id: NodeId, state: ConnectionState, succ: NodeId, secondSucc: NodeId, awaitingSucc: bool, awaitingPred: bool,
    predConn: Option<Conn>, succConn: Option<Conn>, newNodeConn: Option<Conn>, timer: bool, joinEnds: nat)

  // Connections opened, then messages written (at most one per connection), then connections closed.
  datatype Effects = Effects(dialed: set<Conn>, sent: map<Conn, Message>, closed: set<Conn>)

  const NOTHING := Effects({}, map[], {})

  // `Exit` is where the program stops, be it by design or by following a null pointer.
  datatype Outcome = Exit | Continue(peer: Peer, effects: Effects)

  function Open(c: Option<Conn>): set<Conn> {
    if c.Some? then {c.value} else {}
  }

  function LeaveRing(p: Peer): Outcome {
    Continue(p.(state := DISCONNECTED, predConn := None, succConn := None, newNodeConn := None),
             Effects({}, map[], Open(p.predConn) + Open(p.succConn) + Open(p.newNodeConn)))
  }

  function OnJoinEnd(p: Peer): Peer {
    p.(state := CONNECTED, joinEnds := p.joinEnds + 1)
  }

  // Whether find_connection_by_node_id finds a connection to `id`.
  predicate ConnectedTo(p: Peer, id: NodeId) {
    (p.succConn.Some? && p.succConn.value.acceptor == id) || (p.predConn.Some? && p.predConn.value.opener == id)
  }

  function JoinRing(p: Peer, target: NodeId): Outcome {
    var c := Conn(p.id, target);
    Continue(p.(state := CONNECTING, succ := target, awaitingSucc := true, awaitingPred := true,
                predConn := None, newNodeConn := None, succConn := Some(c), timer := true),
             Effects({c}, map[c := Entry(p.id)], {}))
  }

  // handle_message_from_succ
  function FromSucc(p: Peer, m: Message): Outcome {
    match m
    case Succ(id) =>
      if id == p.succ then Continue(p, NOTHING)
      else
        var p' := p.(secondSucc := id, awaitingSucc := false);
        Continue(if p.state == CONNECTING && !p.awaitingPred then OnJoinEnd(p') else p', NOTHING)
    case Entry(id) =>
      if id == p.id || ConnectedTo(p, id) || id == p.secondSucc then LeaveRing(p)
      else if p.predConn.None? then Exit
      else
        var c := Conn(p.id, id);
        Continue(p.(secondSucc := p.succ, succ := id, succConn := Some(c)),
                 Effects({c}, map[p.predConn.value := Succ(id), c := Pred(p.id)], Open(p.succConn)))
    case _ => Continue(p, NOTHING)
  }

  // handle_message_from_pred
  function FromPred(p: Peer, m: Message): Outcome {
    if m.Entry? && p.state == CONNECTING then LeaveRing(p) else Continue(p, NOTHING)
  }

  // handle_message_from_new_node, for the connection `c`
  function FromNewNode(p: Peer, c: Conn, m: Message): Outcome {
    match m
    case Entry(id) =>
      if p.state == DISCONNECTED || (p.state == CONNECTED && p.succ == p.id) then
        if p.state == DISCONNECTED || id == p.id then Continue(p.(newNodeConn := None), Effects({}, map[], {c}))
        else if p.predConn.Some? then Exit
        else
          var o := Conn(p.id, id);
          Continue(p.(succ := id, secondSucc := p.id, succConn := Some(o), predConn := Some(c), newNodeConn := None),
                   Effects({o}, map[c := Succ(id), o := Pred(p.id)], {}))
      else if p.state == CONNECTED then
        if p.predConn.None? then Exit
        else Continue(p.(predConn := Some(c), newNodeConn := None),
                      Effects({}, map[c := Succ(p.succ), p.predConn.value := Entry(id)], Open(p.predConn)))
      else Continue(p.(newNodeConn := None), Effects({}, map[], {c}))
    case Pred(id) =>
      if p.state == DISCONNECTED then Continue(p.(newNodeConn := None), Effects({}, map[], {c}))
      else
        var p' := p.(predConn := Some(c), newNodeConn := None, timer := false, awaitingPred := false);
        Continue(if p.state == CONNECTING && !p.awaitingSucc then OnJoinEnd(p') else p',
                 Effects({}, map[c := Succ(p.succ)], Open(p.predConn)))
    case _ => Continue(p, NOTHING)
  }

  // handle_broken_socket for the successor's connection `c`
  function BrokenSucc(p: Peer, c: Conn): Outcome {
    if p.state != CONNECTED then LeaveRing(p)
    else
      var p' := p.(awaitingSucc := true, succ := p.secondSucc);
      if p'.succ == p.id then Continue(p'.(succConn := None), Effects({}, map[], {c}))
      else if p.predConn.None? then LeaveRing(p')
      else
        var o := Conn(p.id, p'.succ);
        Continue(p'.(succConn := Some(o)),
                 Effects({o}, map[p.predConn.value := Succ(p'.succ), o := Pred(p.id)], {c}))
  }

  // handle_broken_socket for the predecessor's connection `c`
  function BrokenPred(p: Peer, c: Conn): Outcome {
    if p.state != CONNECTED then LeaveRing(p)
    else Continue(p.(predConn := None, timer := p.timer || p.id != p.secondSucc), Effects({}, map[], {c}))
  }

  // handle_message and handle_broken_socket: dispatch on the role of the connection.
  function Handle(p: Peer, c: Conn, m: Message): Outcome {
    if p.newNodeConn == Some(c) then
      if m.EndOfFile? then Continue(p.(newNodeConn := None), Effects({}, map[], {c})) else FromNewNode(p, c, m)
    else if p.predConn == Some(c) then
      if m.EndOfFile? then BrokenPred(p, c) else FromPred(p, m)
    else if p.succConn == Some(c) then
      if m.EndOfFile? then BrokenSucc(p, c) else FromSucc(p, m)
    else Continue(p, NOTHING)
  }

  predicate RolesDiffer(p: Peer) {
    && (p.newNodeConn.Some? ==> p.newNodeConn != p.predConn && p.newNodeConn != p.succConn)
    && (p.predConn.Some? ==> p.predConn != p.succConn)
  }

  // The nodes of a network; for each connection and direction what was written and not yet read; and the connections
  // whose acceptor has not accepted them yet.
  datatype System = System(peers: map<NodeId, Peer>, channels: map<(Conn, bool), seq<Message>>, waiting: set<Conn>)

  function Off(id: NodeId): Peer {
    Peer(id, DISCONNECTED, id, id, false, false, None, None, None, false, 0)
  }

  function PeerOf(s: System, id: NodeId): Peer {
    if id in s.peers then s.peers[id] else Off(id)
  }

  function Chan(s: System, c: Conn, toAcceptor: bool): seq<Message> {
    if (c, toAcceptor) in s.channels then s.channels[(c, toAcceptor)] else []
  }

  function Reader(c: Conn, toAcceptor: bool): NodeId {
    if toAcceptor then c.acceptor else c.opener
  }

  predicate HasRole(p: Peer, c: Conn) {
    p.newNodeConn == Some(c) || p.predConn == Some(c) || p.succConn == Some(c)
  }

  // What is in a channel after node `x` has caused `e`; closing an end discards what was not read there and tells the
  // other end.
  function After(q: seq<Message>, x: NodeId, e: Effects, c: Conn, toAcceptor: bool): seq<Message> {
    if Reader(c, toAcceptor) == x then if c in e.dialed || c in e.closed then [] else q
    else if Reader(c, !toAcceptor) == x then
      (if c in e.dialed then [] else q)
      + (if c in e.sent then [e.sent[c]] else [])
      + (if c in e.closed then [EndOfFile] else [])
    else q
  }

  datatype Step = Accept(c: Conn) | Read(c: Conn, toAcceptor: bool)

  // main.c accepts a connection unless it is busy with another one.
  predicate Accepts(p: Peer) {
    p.state != DISCONNECTED && p.newNodeConn.None?
  }

  predicate Enabled(s: System, step: Step) {
    match step
    case Accept(c) => c in s.waiting
    case Read(c, toAcceptor) => HasRole(PeerOf(s, Reader(c, toAcceptor)), c) && Chan(s, c, toAcceptor) != []
  }

  ghost predicate AcceptStep(s: System, c: Conn, s': System) {
    var p := PeerOf(s, c.acceptor);
    var e := if Accepts(p) then NOTHING else Effects({}, map[], {c});
    && (forall y :: PeerOf(s', y) == if y == c.acceptor && Accepts(p) then p.(newNodeConn := Some(c)) else PeerOf(s, y))
    && (forall d, t :: Chan(s', d, t) == After(Chan(s, d, t), c.acceptor, e, d, t))
    && s'.waiting == s.waiting - {c}
  }

  ghost predicate ReadStep(s: System, c: Conn, toAcceptor: bool, s': System)
    requires Chan(s, c, toAcceptor) != []
  {
    var x := Reader(c, toAcceptor);
    match Handle(PeerOf(s, x), c, Chan(s, c, toAcceptor)[0])
    case Exit => true
    case Continue(p, e) =>
      && (forall y :: PeerOf(s', y) == if y == x then p else PeerOf(s, y))
      && (forall d, t :: Chan(s', d, t) ==
                         After(if d == c && t == toAcceptor then Chan(s, d, t)[1..] else Chan(s, d, t), x, e, d, t))
      && s'.waiting == s.waiting + e.dialed
  }

  // Nothing is said about what comes after a node exits.
  ghost predicate Next(s: System, step: Step, s': System) {
    && Enabled(s, step)
    && match step
       case Accept(c) => AcceptStep(s, c, s')
       case Read(c, toAcceptor) => ReadStep(s, c, toAcceptor, s')
  }

  // A network in which node `x` has become `p` and caused `e`.
  lemma EffectsExist(s: System, channels: map<(Conn, bool), seq<Message>>, x: NodeId, p: Peer, e: Effects)
    returns (s': System)
    ensures forall y :: PeerOf(s', y) == if y == x then p else PeerOf(s, y)
    ensures forall d, t :: Chan(s', d, t) == After(if (d, t) in channels then channels[(d, t)] else [], x, e, d, t)
    ensures s'.waiting == s.waiting + e.dialed
  {
    var conns := e.dialed + e.sent.Keys + e.closed;
    var keys := channels.Keys + (set d, t | d in conns && t in {false, true} :: (d, t));
    s' := System(s.peers[x := p],
                 map k | k in keys :: After(if k in channels then channels[k] else [], x, e, k.0, k.1),
                 s.waiting + e.dialed);
  }

  // Every step that is possible has an outcome.
  lemma StepExists(s: System, step: Step) returns (s': System)
    requires Enabled(s, step)
    ensures Next(s, step, s')
  {
    match step {
      case Accept(c) =>
        var p := PeerOf(s, c.acceptor);
        var e := if Accepts(p) then NOTHING else Effects({}, map[], {c});
        s' := EffectsExist(s, s.channels, c.acceptor, if Accepts(p) then p.(newNodeConn := Some(c)) else p, e);
        s' := s'.(waiting := s.waiting - {c});
      case Read(c, t) =>
        var x := Reader(c, t);
        match Handle(PeerOf(s, x), c, Chan(s, c, t)[0]) {
          case Exit => s' := s;
          case Continue(p, e) =>
            s' := EffectsExist(s, s.channels[(c, t) := Chan(s, c, t)[1..]], x, p, e);
        }
    }
  }

  // The reader of channel `(c, t)` becomes `p`, the first message is gone, and nothing else happens.
  ghost predicate Becomes(s: System, c: Conn, t: bool, p: Peer, s': System) {
    && (forall y :: PeerOf(s', y) == if y == Reader(c, t) then p else PeerOf(s, y))
    && (forall d, u :: Chan(s', d, u) ==
                       if d == c && u == t && Chan(s, d, u) != [] then Chan(s, d, u)[1..] else Chan(s, d, u))
    && s'.waiting == s.waiting
  }

  lemma AfterNothing(q: seq<Message>, x: NodeId, c: Conn, t: bool)
    ensures After(q, x, NOTHING, c, t) == q
  {
    assert q + [] + [] == q;
  }

  lemma QuietRead(s: System, c: Conn, t: bool, s': System, p: Peer)
    requires Next(s, Read(c, t), s') && Handle(PeerOf(s, Reader(c, t)), c, Chan(s, c, t)[0]) == Continue(p, NOTHING)
    ensures Becomes(s, c, t, p, s')
  {
    forall q, d, u ensures After(q, Reader(c, t), NOTHING, d, u) == q {
      AfterNothing(q, Reader(c, t), d, u);
    }
  }

  // The same with effects on other channels.
  ghost predicate Acts(s: System, c: Conn, t: bool, p: Peer, e: Effects, s': System) {
    && (forall y :: PeerOf(s', y) == if y == Reader(c, t) then p else PeerOf(s, y))
    && (forall d, u :: Chan(s', d, u) ==
                       After(if d == c && u == t && Chan(s, d, u) != [] then Chan(s, d, u)[1..] else Chan(s, d, u),
                             Reader(c, t), e, d, u))
    && s'.waiting == s.waiting + e.dialed
  }

  lemma BusyRead(s: System, c: Conn, t: bool, s': System, p: Peer, e: Effects)
    requires Next(s, Read(c, t), s') && Handle(PeerOf(s, Reader(c, t)), c, Chan(s, c, t)[0]) == Continue(p, e)
    ensures Acts(s, c, t, p, e, s')
  {
  }

  ghost predicate Admits(s: System, c: Conn, s': System) {
    && (forall y :: PeerOf(s', y) == if y == c.acceptor then PeerOf(s, y).(newNodeConn := Some(c)) else PeerOf(s, y))
    && (forall d, u :: Chan(s', d, u) == Chan(s, d, u))
    && s'.waiting == s.waiting - {c}
  }

  lemma PlainAccept(s: System, c: Conn, s': System)
    requires Next(s, Accept(c), s') && Accepts(PeerOf(s, c.acceptor))
    ensures Admits(s, c, s')
  {
  }

  ghost predicate StepAt(states: seq<System>, steps: seq<Step>, i: nat)
    requires |states| == |steps| + 1 && i < |steps|
  {
    Next(states[i], steps[i], states[i + 1])
  }

  ghost predicate IsRun(states: seq<System>, steps: seq<Step>) {
    && |states| == |steps| + 1
    && forall i :: 0 <= i < |steps| ==> StepAt(states, steps, i)
  }

  // The index after `i` and the one before it, around a ring of `n`.
  function Up(n: nat, i: nat): nat {
    if i + 1 == n then 0 else i + 1
  }

  function Down(n: nat, i: nat): nat
    requires i < n
  {
    if i == 0 then n - 1 else i - 1
  }

  // The connection from the `i`th node to the next.
  function Link(ring: seq<NodeId>, i: nat): Conn
    requires i < |ring|
  {
    Conn(ring[i], ring[Up(|ring|, i)])
  }

  ghost predicate SettledMember(ring: seq<NodeId>, i: nat, p: Peer)
    requires i < |ring|
  {
    var n := |ring|;
    && p.id == ring[i] && p.state == CONNECTED && !p.timer
    && p.succ == ring[Up(n, i)] && p.secondSucc == ring[Up(n, Up(n, i))]
    && p.newNodeConn == None
    && (if n == 1 then p.predConn == None && p.succConn == None
        else p.predConn == Some(Link(ring, Down(n, i))) && p.succConn == Some(Link(ring, i)))
  }

  ghost predicate SettledAt(s: System, ring: seq<NodeId>, i: nat)
    requires i < |ring|
  {
    && SettledMember(ring, i, PeerOf(s, ring[i]))
    && (|ring| > 1 ==> Chan(s, Link(ring, i), true) == [] && Chan(s, Link(ring, i), false) == [])
  }

  // A ring at rest: every pointer is right, every connection is read to the end, and no other node is connected.
  ghost predicate Settled(s: System, ring: seq<NodeId>) {
    && ring != [] && NoDup(ring) && s.waiting == {}
    && (forall i :: 0 <= i < |ring| ==> SettledAt(s, ring, i))
    && (forall y :: y !in ring ==> forall c :: !HasRole(PeerOf(s, y), c))
  }

  function Turn(ring: seq<NodeId>, k: nat): seq<NodeId>
    requires k <= |ring|
  {
    ring[k..] + ring[..k]
  }

  lemma TurnByOne(ring: seq<NodeId>)
    requires ring != []
    ensures |Turn(ring, 1)| == |ring|
    ensures forall k :: 0 <= k < |ring| ==> Turn(ring, 1)[k] == ring[Up(|ring|, k)]
    ensures NoDup(ring) ==> NoDup(Turn(ring, 1))
    ensures forall y :: y in Turn(ring, 1) <==> y in ring
  {
  }

  lemma TurnOnceMore(ring: seq<NodeId>, k: nat)
    requires 0 < k <= |ring|
    ensures Turn(Turn(ring, k - 1), 1) == Turn(ring, k) && Turn(ring, k - 1) != []
  {
  }

  lemma TurnedMember(s: System, ring: seq<NodeId>, i: nat)
    requires i < |ring| && SettledAt(s, ring, Up(|ring|, i))
    ensures |Turn(ring, 1)| == |ring| && SettledAt(s, Turn(ring, 1), i)
  {
  }

  lemma SettledFromSecond(s: System, ring: seq<NodeId>)
    requires Settled(s, ring)
    ensures Settled(s, Turn(ring, 1))
  {
    TurnByOne(ring);
    forall i | 0 <= i < |ring| ensures SettledAt(s, Turn(ring, 1), i) {
      TurnedMember(s, ring, i);
    }
  }

  // A settled ring is settled whichever member one starts from.
  lemma {:induction false} SettledFromAnyMember(s: System, ring: seq<NodeId>, k: nat)
    requires Settled(s, ring) && k <= |ring|
    ensures Settled(s, Turn(ring, k))
  {
    if k == 0 {
      assert Turn(ring, 0) == ring;
    } else {
      SettledFromAnyMember(s, ring, k - 1);
      SettledFromSecond(s, Turn(ring, k - 1));
      TurnOnceMore(ring, k);
    }
  }
}
