/** How the handlers of ring.c and main.c move connections between roles, and whether the routing table has a column
    for a node only while there is a connection to it. */
module NeighborAgreement {
  import opened Nodes
  import opened Connections

  // The pool, and the neighbours that have a column in the routing table.
  datatype State = State(pool: Pool, columns: set<NodeId>)

  // What happens to a node; `socket` is that of a connection it opens, `found` the one find_connection_by_node_id finds
  // for the node it is about to connect to, `CLOSED` if there is none.
  datatype Event =
    | Accepted(socket: int)
    | EntryWhileAlone(id: NodeId, socket: int)
    | EntryInRing(id: NodeId)
    | PredMessage(id: NodeId, found: int)
    | ChordMessage(id: NodeId)
    | EntryFromSucc(id: NodeId, socket: int)
    | OpenChord(id: NodeId, socket: int)
    | RemoveChord
    | BrokenSucc(id: NodeId, socket: int, found: int)
    | Broken(socket: int)
    | RouteRead(socket: int)
    | LeaveRing
    | JoinRing(id: NodeId, socket: int)
    | StartAlone

  predicate Connected(p: Pool, id: NodeId) {
    exists s :: s in p.nodes && p.nodes[s] == id
  }

  // remove_neighbor_connection
  function RemoveNeighbor(st: State, id: NodeId): State {
    if id != UNKNOWN && !Connected(st.pool, id) then st.(columns := st.columns - {id}) else st
  }

  // Close a connection and, if it was the last one to its node, remove the column.
  function CloseAndRemove(st: State, socket: int): State
    requires socket in st.pool.nodes
  {
    RemoveNeighbor(st.(pool := Without(st.pool, socket)), st.pool.nodes[socket])
  }

  // The chord that a connection in the ring makes superfluous.
  function CloseDegenerateChord(st: State, found: int): State {
    if found in st.pool.nodes && (found == st.pool.chord || IsInboundChord(st.pool, found))
      then CloseAndRemove(st, found) else st
  }

  predicate IsFound(p: Pool, id: NodeId, found: int) {
    if Connected(p, id) then found in p.nodes && p.nodes[found] == id else found == CLOSED
  }

  predicate IsNew(p: Pool, socket: int) {
    socket != CLOSED && socket !in p.nodes
  }

  // When an event can happen: the guards in main.c and in the handlers, where the program does not exit, and what the
  // operating system and the other nodes guarantee.  The direct join command is not guarded (main.c:112-130).
  predicate Possible(st: State, ev: Event) {
    var p := st.pool;
    match ev
    case Accepted(socket) => IsNew(p, socket) && p.newNode == CLOSED
    case EntryWhileAlone(id, socket) =>
      id != UNKNOWN && IsNew(p, socket) && p.newNode != CLOSED && p.pred == CLOSED
    case EntryInRing(id) => id != UNKNOWN && p.newNode != CLOSED && p.pred != CLOSED
    case PredMessage(id, found) =>
      id != UNKNOWN && p.newNode != CLOSED && IsFound(if p.pred == CLOSED then p else Without(p, p.pred), id, found)
    case ChordMessage(id) => id != UNKNOWN && p.newNode != CLOSED
    case EntryFromSucc(id, socket) => id != UNKNOWN && IsNew(p, socket) && p.succ != CLOSED
    case OpenChord(id, socket) => id != UNKNOWN && IsNew(p, socket)
    case RemoveChord => p.chord != CLOSED
    case BrokenSucc(id, socket, found) =>
      id != UNKNOWN && IsNew(p, socket) && p.succ != CLOSED && IsFound(p, id, found)
    case Broken(socket) => socket in p.nodes
    case RouteRead(socket) => socket in p.nodes && socket != p.newNode
    case LeaveRing => true
    case JoinRing(id, socket) => id != UNKNOWN && IsNew(p, socket)
    case StartAlone => true
  }

  const NO_CONNECTIONS := Pool(map[], CLOSED, CLOSED, CLOSED, CLOSED)

  function Handle(st: State, ev: Event): State
    requires RolesOpen(st.pool) && Possible(st, ev)
  {
    var p := st.pool;
    match ev
    case Accepted(socket) => st.(pool := p.(nodes := p.nodes[socket := UNKNOWN], newNode := socket))
    case EntryWhileAlone(id, socket) =>
      st.(pool := p.(nodes := p.nodes[p.newNode := id][socket := id], succ := socket, pred := p.newNode,
                     newNode := CLOSED))
    case EntryInRing(id) =>
      var st' := CloseAndRemove(st.(pool := p.(nodes := p.nodes[p.newNode := id])), p.pred);
      st'.(pool := st'.pool.(pred := p.newNode, newNode := CLOSED))
    case PredMessage(id, found) =>
      // The old connection is closed, but its column stays.
      var st' := CloseDegenerateChord(st.(pool := if p.pred == CLOSED then p else Without(p, p.pred)), found);
      st'.(pool := st'.pool.(nodes := st'.pool.nodes[p.newNode := id], pred := p.newNode, newNode := CLOSED))
    case ChordMessage(id) =>
      if Connected(p, id) then st
      else st.(pool := p.(nodes := p.nodes[p.newNode := id], newNode := CLOSED))
    case EntryFromSucc(id, socket) =>
      var st' := CloseAndRemove(st, p.succ);
      st'.(pool := st'.pool.(nodes := st'.pool.nodes[socket := id], succ := socket))
    case OpenChord(id, socket) => st.(pool := p.(nodes := p.nodes[socket := id], chord := socket))
    case RemoveChord => CloseAndRemove(st, p.chord)
    case BrokenSucc(id, socket, found) =>
      var st' := CloseDegenerateChord(st, found);
      CloseAndRemove(st'.(pool := st'.pool.(nodes := st'.pool.nodes[socket := id], succ := socket)), p.succ)
    case Broken(socket) => CloseAndRemove(st, socket)
    case RouteRead(socket) => st.(columns := st.columns + {p.nodes[socket]})
    case LeaveRing => st.(pool := NO_CONNECTIONS)
    case JoinRing(id, socket) =>
      // The role pointers are set anew; what they pointed to stays open.
      State(NO_CONNECTIONS.(nodes := p.nodes[socket := id], succ := socket), {})
    case StartAlone => st
  }

  // Every role pointer is null or points to an open connection of its own.
  predicate RolesOpen(p: Pool) {
    && CLOSED !in p.nodes
    && (p.newNode != CLOSED ==>
          p.newNode in p.nodes && p.newNode != p.pred && p.newNode != p.succ && p.newNode != p.chord)
    && (p.pred != CLOSED ==> p.pred in p.nodes && p.pred != p.succ && p.pred != p.chord)
    && (p.succ != CLOSED ==> p.succ in p.nodes && p.succ != p.chord)
    && (p.chord != CLOSED ==> p.chord in p.nodes)
  }

  // The only node whose ID is unknown is the one that has just connected.
  ghost predicate PoolInv(p: Pool) {
    RolesOpen(p) && forall s :: s in p.nodes ==> (p.nodes[s] == UNKNOWN <==> s == p.newNode)
  }

  // So each connection is handled in exactly one way.
  lemma OneClassEach(p: Pool, s: int)
    requires PoolInv(p) && s in p.nodes
    ensures Bit(s == p.newNode) + Bit(s == p.pred) + Bit(s == p.succ) + Bit(s == p.chord)
            + Bit(IsInboundChord(p, s)) == 1
  {
  }

  lemma ClosingKeepsInv(st: State, socket: int)
    requires PoolInv(st.pool) && socket in st.pool.nodes
    ensures CloseAndRemove(st, socket).pool == Without(st.pool, socket) && PoolInv(Without(st.pool, socket))
  {
  }

  lemma ChordClosingKeepsInv(st: State, found: int)
    requires PoolInv(st.pool)
    ensures var st' := CloseDegenerateChord(st, found);
            && PoolInv(st'.pool) && st'.pool.nodes.Keys <= st.pool.nodes.Keys
            && st'.pool.pred == st.pool.pred && st'.pool.succ == st.pool.succ && st'.pool.newNode == st.pool.newNode
  {
  }

  lemma PredKeepsInv(st: State, id: NodeId, found: int)
    requires PoolInv(st.pool) && Possible(st, PredMessage(id, found))
    ensures PoolInv(Handle(st, PredMessage(id, found)).pool)
  {
  }

  lemma BrokenSuccKeepsInv(st: State, id: NodeId, socket: int, found: int)
    requires PoolInv(st.pool) && Possible(st, BrokenSucc(id, socket, found))
    ensures PoolInv(Handle(st, BrokenSucc(id, socket, found)).pool)
  {
    ChordClosingKeepsInv(st, found);
    var st' := CloseDegenerateChord(st, found);
    var st'' := st'.(pool := st'.pool.(nodes := st'.pool.nodes[socket := id], succ := socket));
    assert PoolInv(st''.pool);
    ClosingKeepsInv(st'', st.pool.succ);
  }

  // Every role pointer that is not null goes on pointing to an open connection of its own, unless a direct join makes
  // the node forget a connection that has not told its ID yet.
  lemma PoolInvKeptExactlyWhen(st: State, ev: Event)
    requires PoolInv(st.pool) && Possible(st, ev)
    ensures PoolInv(Handle(st, ev).pool) <==> !(ev.JoinRing? && st.pool.newNode != CLOSED)
  {
    match ev {
      case PredMessage(id, found) => PredKeepsInv(st, id, found);
      case BrokenSucc(id, socket, found) => BrokenSuccKeepsInv(st, id, socket, found);
      case EntryInRing(id) =>
        var st' := st.(pool := st.pool.(nodes := st.pool.nodes[st.pool.newNode := id]));
        assert CloseAndRemove(st', st.pool.pred).pool == Without(st'.pool, st.pool.pred);
      case EntryFromSucc(id, socket) => ClosingKeepsInv(st, st.pool.succ);
      case RemoveChord => ClosingKeepsInv(st, st.pool.chord);
      case Broken(socket) => ClosingKeepsInv(st, socket);
      case JoinRing(id, socket) =>
        if st.pool.newNode != CLOSED {
          assert Handle(st, ev).pool.nodes[st.pool.newNode] == UNKNOWN;
        }
      case _ =>
    }
  }

  // Every neighbour with a column can be sent to.
  ghost predicate Agreement(st: State) {
    UNKNOWN !in st.columns && forall id :: id in st.columns ==> Connected(st.pool, id)
  }

  lemma CloseAndRemoveAgrees(st: State, socket: int)
    requires socket in st.pool.nodes && Agreement(st)
    ensures Agreement(CloseAndRemove(st, socket))
  {
    var st' := CloseAndRemove(st, socket);
    forall id | id in st'.columns ensures Connected(st'.pool, id) {
      var s :| s in st.pool.nodes && st.pool.nodes[s] == id;
      assert s != socket ==> s in st'.pool.nodes && st'.pool.nodes[s] == id;
    }
  }

  // A connection gets another ID or is opened.
  lemma MoreNodesAgree(st: State, st': State)
    requires Agreement(st) && st'.columns == st.columns
    requires forall s :: s in st.pool.nodes && st.pool.nodes[s] != UNKNOWN ==>
               s in st'.pool.nodes && st'.pool.nodes[s] == st.pool.nodes[s]
    ensures Agreement(st')
  {
  }

  lemma ChordClosingAgrees(st: State, found: int)
    requires Agreement(st)
    ensures Agreement(CloseDegenerateChord(st, found))
  {
    if found in st.pool.nodes {
      CloseAndRemoveAgrees(st, found);
    }
  }

  // Every event but two keeps the agreement; joining a ring restores it.
  lemma AgreementKept(st: State, ev: Event)
    requires PoolInv(st.pool) && Possible(st, ev)
    requires !ev.PredMessage? && !ev.LeaveRing?
    requires Agreement(st) || ev.JoinRing?
    ensures Agreement(Handle(st, ev))
  {
    var p := st.pool;
    match ev {
      case EntryInRing(id) =>
        var st' := st.(pool := p.(nodes := p.nodes[p.newNode := id]));
        MoreNodesAgree(st, st');
        CloseAndRemoveAgrees(st', p.pred);
        MoreNodesAgree(CloseAndRemove(st', p.pred), Handle(st, ev));
      case EntryFromSucc(id, socket) =>
        CloseAndRemoveAgrees(st, p.succ);
        MoreNodesAgree(CloseAndRemove(st, p.succ), Handle(st, ev));
      case RemoveChord => CloseAndRemoveAgrees(st, p.chord);
      case BrokenSucc(id, socket, found) =>
        ChordClosingAgrees(st, found);
        var st' := CloseDegenerateChord(st, found);
        var st'' := st'.(pool := st'.pool.(nodes := st'.pool.nodes[socket := id], succ := socket));
        MoreNodesAgree(st', st'');
        CloseAndRemoveAgrees(st'', p.succ);
      case Broken(socket) => CloseAndRemoveAgrees(st, socket);
      case RouteRead(socket) =>
        assert p.nodes[socket] != UNKNOWN;
      case JoinRing(_, _) =>
      case StartAlone =>
      case Accepted(_) => MoreNodesAgree(st, Handle(st, ev));
      case EntryWhileAlone(_, _) => MoreNodesAgree(st, Handle(st, ev));
      case ChordMessage(_) => MoreNodesAgree(st, Handle(st, ev));
      case OpenChord(_, _) => MoreNodesAgree(st, Handle(st, ev));
    }
  }

  // A PRED message that replaces a predecessor keeps the agreement exactly when the old predecessor had no column, is
  // the new one, or has another connection: the handler does not remove the column of the connection it closes.
  lemma PredKeepsAgreementExactlyWhen(st: State, id: NodeId, found: int)
    requires PoolInv(st.pool) && Agreement(st) && Possible(st, PredMessage(id, found))
    ensures var p := st.pool;
            Agreement(Handle(st, PredMessage(id, found))) <==>
            || p.pred == CLOSED || p.nodes[p.pred] !in st.columns || p.nodes[p.pred] == id
            || exists s :: s in p.nodes && s != p.pred && p.nodes[s] == p.nodes[p.pred]
  {
    var p, st' := st.pool, Handle(st, PredMessage(id, found));
    PredKeepsInv(st, id, found);
    assert st'.pool.nodes[p.newNode] == id;
    forall c | c in st'.columns && (p.pred == CLOSED || c != p.nodes[p.pred] || c == id)
      ensures Connected(st'.pool, c)
    {
      if c != id {
        var s :| s in p.nodes && p.nodes[s] == c;
        assert s in st'.pool.nodes && st'.pool.nodes[s] == c;
      }
    }
    if p.pred != CLOSED && p.nodes[p.pred] != id {
      var o := p.nodes[p.pred];
      assert o in st'.columns <==> o in st.columns;
      assert forall s :: s in st'.pool.nodes && st'.pool.nodes[s] == o ==>
               s in p.nodes && s != p.pred && p.nodes[s] == o;
      assert forall s :: s in p.nodes && s != p.pred && p.nodes[s] == o ==>
               s in st'.pool.nodes && st'.pool.nodes[s] == o;
    }
  }

  // Leaving a ring closes all connections and keeps all columns.
  lemma LeaveRingAgreesExactlyWhen(st: State)
    requires PoolInv(st.pool)
    ensures Agreement(Handle(st, LeaveRing)) <==> st.columns == {}
  {
    if id :| id in st.columns {
      assert !Connected(NO_CONNECTIONS, id);
    } else {
      assert forall id :: id !in st.columns;
    }
  }

  // And so does a direct join to oneself, where another join would begin without columns.
  lemma RejoiningAgreesExactlyWhen(st: State, ev: Event)
    requires PoolInv(st.pool) && (ev.StartAlone? || ev.JoinRing?) && Possible(Handle(st, LeaveRing), ev)
    ensures Agreement(Handle(Handle(st, LeaveRing), ev)) <==> ev.JoinRing? || st.columns == {}
  {
    LeaveRingAgreesExactlyWhen(st);
  }

  // What happens to a node from the start of the program.
  const START := State(NO_CONNECTIONS, {})

  ghost predicate HandledAt(states: seq<State>, events: seq<Event>, i: nat)
    requires |states| == |events| + 1 && i < |events|
  {
    && RolesOpen(states[i].pool) && Possible(states[i], events[i])
    && states[i + 1] == Handle(states[i], events[i])
  }

  ghost predicate IsHistory(states: seq<State>, events: seq<Event>) {
    && |states| == |events| + 1 && states[0] == START
    && forall i :: 0 <= i < |events| ==> HandledAt(states, events, i)
  }

  lemma Continue(states: seq<State>, events: seq<Event>, ev: Event, st: State)
    returns (states': seq<State>, events': seq<Event>)
    requires IsHistory(states, events)
    requires RolesOpen(states[|events|].pool) && Possible(states[|events|], ev) && st == Handle(states[|events|], ev)
    ensures IsHistory(states', events') && states'[|events'|] == st
    ensures states' == states + [st] && events' == events + [ev]
  {
    states', events' := states + [st], events + [ev];
    forall i | 0 <= i < |events'| ensures HandledAt(states', events', i) {
      if i < |events| {
        assert HandledAt(states, events, i);
      }
    }
  }

  // The node has joined a ring; its predecessor is node 6, which has sent a ROUTE message.
  const IN_RING := State(Pool(map[10 := 5, 11 := 6], CLOSED, 11, 10, CLOSED), {6})

  lemma GetsIntoRing() returns (states: seq<State>, events: seq<Event>)
    ensures IsHistory(states, events) && states[|events|] == IN_RING
  {
    var a := State(Pool(map[10 := 5], CLOSED, CLOSED, 10, CLOSED), {});
    var b := State(Pool(map[10 := 5, 11 := UNKNOWN], 11, CLOSED, 10, CLOSED), {});
    states, events := Continue([START], [], JoinRing(5, 10), a);
    states, events := Continue(states, events, Accepted(11), b);
    states, events := Continue(states, events, PredMessage(6, CLOSED), IN_RING.(columns := {}));
    states, events := Continue(states, events, RouteRead(11), IN_RING);
  }

  // Node 7 introduces itself as the predecessor: node 6 has a column and no connection.
  lemma PredCanBreakAgreement() returns (states: seq<State>, events: seq<Event>)
    ensures IsHistory(states, events) && |events| > 0 && events[|events| - 1] == PredMessage(7, CLOSED)
    ensures Agreement(states[|events| - 1]) && !Agreement(states[|events|])
  {
    states, events := GetsIntoRing();
    var b := State(Pool(map[10 := 5, 11 := 6, 12 := UNKNOWN], 12, 11, 10, CLOSED), {6});
    states, events := Continue(states, events, Accepted(12), b);
    assert Agreement(b) by {
      assert b.pool.nodes[11] == 6;
    }
    var c := State(Pool(map[10 := 5, 12 := 7], CLOSED, 12, 10, CLOSED), {6});
    states, events := Continue(states, events, PredMessage(7, CLOSED), c);
    assert !Connected(c.pool, 6);
  }

  // The node leaves the ring and starts one of its own: again node 6 has a column and no connection.
  lemma RejoiningCanBreakAgreement() returns (states: seq<State>, events: seq<Event>)
    ensures IsHistory(states, events) && |events| > 1 && events[|events| - 2] == LeaveRing
            && events[|events| - 1] == StartAlone
    ensures Agreement(states[|events| - 2]) && !Agreement(states[|events|])
  {
    states, events := GetsIntoRing();
    assert Agreement(IN_RING) by {
      assert IN_RING.pool.nodes[11] == 6;
    }
    states, events := Continue(states, events, LeaveRing, State(NO_CONNECTIONS, {6}));
    states, events := Continue(states, events, StartAlone, State(NO_CONNECTIONS, {6}));
    assert !Connected(NO_CONNECTIONS, 6);
  }

  // A connection nothing is known about: the program exits when it reads from it or notices that it is broken.
  predicate Forgotten(p: Pool, socket: int) {
    IsInboundChord(p, socket) && p.nodes[socket] == UNKNOWN
  }

  // A direct join can leave one behind, and does exactly when a new connection has not told its ID.
  lemma ForgottenExactlyWhen(st: State, ev: Event)
    requires PoolInv(st.pool) && Possible(st, ev)
    ensures (exists s :: Forgotten(Handle(st, ev).pool, s)) <==> ev.JoinRing? && st.pool.newNode != CLOSED
  {
    PoolInvKeptExactlyWhen(st, ev);
    if ev.JoinRing? && st.pool.newNode != CLOSED {
      assert Forgotten(Handle(st, ev).pool, st.pool.newNode);
    }
  }

  lemma DirectJoinCanForget() returns (states: seq<State>, events: seq<Event>)
    ensures IsHistory(states, events) && Forgotten(states[|events|].pool, 10)
  {
    states, events := Continue([START], [], StartAlone, START);
    states, events := Continue(states, events, Accepted(10),
                               State(NO_CONNECTIONS.(nodes := map[10 := UNKNOWN], newNode := 10), {}));
    var c := State(Pool(map[10 := UNKNOWN, 11 := 5], CLOSED, CLOSED, 11, CLOSED), {});
    states, events := Continue(states, events, JoinRing(5, 11), c);
  }
}
