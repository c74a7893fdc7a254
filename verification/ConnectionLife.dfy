/** The life of one connection of a node: which role it plays after each event, and what it means for the column of the
    node at its other end. */
module ConnectionLife {
  import opened Nodes
  import opened Connections
  import opened NeighborAgreement

  datatype Role = NewNode | Predecessor | Successor | Chord | InboundChord | Gone

  function RoleOf(p: Pool, s: int): Role {
    if s !in p.nodes then Gone
    else if s == p.newNode then NewNode
    else if s == p.pred then Predecessor
    else if s == p.succ then Successor
    else if s == p.chord then Chord
    else InboundChord
  }

  // The role in which an event opens connection `s`.
  function OpenedAs(ev: Event, s: int): Role {
    match ev
    case Accepted(socket) => if s == socket then NewNode else Gone
    case OpenChord(_, socket) => if s == socket then Chord else Gone
    case EntryWhileAlone(_, socket) => if s == socket then Successor else Gone
    case EntryFromSucc(_, socket) => if s == socket then Successor else Gone
    case BrokenSucc(_, socket, _) => if s == socket then Successor else Gone
    case JoinRing(_, socket) => if s == socket then Successor else Gone
    case _ => Gone
  }

  // An event makes connection `s` superfluous: a chord to the new predecessor or successor.
  predicate Degenerate(p: Pool, ev: Event, s: int) {
    && (RoleOf(p, s) == Chord || RoleOf(p, s) == InboundChord)
    && match ev
       case PredMessage(_, found) => s == found
       case BrokenSucc(_, _, found) => s == found
       case _ => false
  }

  // What becomes of a connection that has a role, one role at a time.
  function Lives(p: Pool, ev: Event, s: int): Role {
    if ev.LeaveRing? || ev == Broken(s) || Degenerate(p, ev, s) then Gone
    else
      match RoleOf(p, s)
      case NewNode =>
        if ev.EntryWhileAlone? || ev.EntryInRing? || ev.PredMessage? then Predecessor
        else if ev.JoinRing? || (ev.ChordMessage? && !Connected(p, ev.id)) then InboundChord
        else NewNode
      case Predecessor =>
        if ev.EntryInRing? || ev.PredMessage? then Gone else if ev.JoinRing? then InboundChord else Predecessor
      case Successor =>
        if ev.EntryFromSucc? || ev.BrokenSucc? then Gone
        else if ev.EntryWhileAlone? || ev.JoinRing? then InboundChord
        else Successor
      case Chord =>
        if ev.RemoveChord? then Gone else if ev.OpenChord? || ev.JoinRing? then InboundChord else Chord
      case InboundChord => InboundChord
      case Gone => OpenedAs(ev, s)
  }

  lemma LifeAtPred(st: State, id: NodeId, found: int, s: int)
    requires PoolInv(st.pool) && Possible(st, PredMessage(id, found)) && s != CLOSED
    ensures RoleOf(Handle(st, PredMessage(id, found)).pool, s) == Lives(st.pool, PredMessage(id, found), s)
  {
  }

  lemma LifeAtBrokenSucc(st: State, id: NodeId, socket: int, found: int, s: int)
    requires PoolInv(st.pool) && Possible(st, BrokenSucc(id, socket, found)) && s != CLOSED
    ensures RoleOf(Handle(st, BrokenSucc(id, socket, found)).pool, s)
            == Lives(st.pool, BrokenSucc(id, socket, found), s)
  {
  }

  lemma LifeAtClosing(st: State, ev: Event, s: int)
    requires PoolInv(st.pool) && Possible(st, ev) && s != CLOSED
    requires ev.EntryInRing? || ev.EntryFromSucc? || ev.RemoveChord? || ev.Broken?
    ensures RoleOf(Handle(st, ev).pool, s) == Lives(st.pool, ev, s)
  {
  }

  lemma LifeElsewhere(st: State, ev: Event, s: int)
    requires PoolInv(st.pool) && Possible(st, ev) && s != CLOSED && !ev.PredMessage? && !ev.BrokenSucc?
    requires !ev.EntryInRing? && !ev.EntryFromSucc? && !ev.RemoveChord? && !ev.Broken?
    ensures RoleOf(Handle(st, ev).pool, s) == Lives(st.pool, ev, s)
  {
  }

  // The handlers do that, to every connection at once.
  lemma LifeOfConnection(st: State, ev: Event, s: int)
    requires PoolInv(st.pool) && Possible(st, ev) && s != CLOSED
    ensures RoleOf(Handle(st, ev).pool, s) == Lives(st.pool, ev, s)
  {
    if ev.PredMessage? {
      LifeAtPred(st, ev.id, ev.found, s);
    } else if ev.BrokenSucc? {
      LifeAtBrokenSucc(st, ev.id, ev.socket, ev.found, s);
    } else if ev.EntryInRing? || ev.EntryFromSucc? || ev.RemoveChord? || ev.Broken? {
      LifeAtClosing(st, ev, s);
    } else {
      LifeElsewhere(st, ev, s);
    }
  }

  // A connection keeps the ID of its node, which is learnt once.
  lemma IdsAreLearntOnce(st: State, ev: Event, s: int)
    requires PoolInv(st.pool) && Possible(st, ev) && s in Handle(st, ev).pool.nodes
    ensures var p, p' := st.pool, Handle(st, ev).pool;
            p'.nodes[s] ==
            if s in p.nodes && !(s == p.newNode && p'.newNode != s && !ev.JoinRing?) then p.nodes[s]
            else if ev.Accepted? then UNKNOWN
            else ev.id
  {
  }

  // There is an open connection to `id` besides those in `closed`.
  predicate ConnectedBeside(p: Pool, closed: set<int>, id: NodeId) {
    exists s :: s in p.nodes && s !in closed && p.nodes[s] == id
  }

  // Which columns there are after an event: remove_neighbor_connection keeps that of a node exactly when another
  // connection to it is still open.
  predicate KeepsColumn(st: State, ev: Event, id: NodeId)
    requires Possible(st, ev)
  {
    var p := st.pool;
    match ev
    case RouteRead(socket) => id in st.columns || id == p.nodes[socket]
    case Broken(socket) => id in st.columns && ConnectedBeside(p, {socket}, id)
    case RemoveChord => id in st.columns && ConnectedBeside(p, {p.chord}, id)
    case EntryFromSucc(_, _) => id in st.columns && ConnectedBeside(p, {p.succ}, id)
    // The newcomer may be known already, and the old predecessor is no neighbour any more.
    case EntryInRing(newcomer) => id in st.columns && (id == newcomer || ConnectedBeside(p, {p.pred}, id))
    // The new successor may be the old one, and a chord to it is closed before it is dialed.
    case BrokenSucc(next, _, found) =>
      && id in st.columns
      && (Degenerate(p, ev, found) && id == next ==> ConnectedBeside(p, {found}, id))
      && (id == next || ConnectedBeside(p, {p.succ}, id))
    // The column of the old predecessor stays, that of a chord goes.
    case PredMessage(pred, found) =>
      id in st.columns && (Degenerate(p, ev, found) && id == pred ==> ConnectedBeside(p, {p.pred, found}, id))
    case JoinRing(_, _) => false
    case _ => id in st.columns
  }

  lemma EntryInRingColumns(st: State, newcomer: NodeId, id: NodeId)
    requires PoolInv(st.pool) && Possible(st, EntryInRing(newcomer)) && Agreement(st)
    ensures id in Handle(st, EntryInRing(newcomer)).columns <==> KeepsColumn(st, EntryInRing(newcomer), id)
  {
    var p := st.pool;
    var st' := st.(pool := p.(nodes := p.nodes[p.newNode := newcomer]));
    var q := Without(st'.pool, p.pred);
    assert q.nodes[p.newNode] == newcomer;
    forall i | i != newcomer && i != UNKNOWN ensures Connected(q, i) <==> ConnectedBeside(p, {p.pred}, i) {
      if s :| s in p.nodes && s != p.pred && p.nodes[s] == i {
        assert s in q.nodes && q.nodes[s] == i;
      }
    }
    if id in st.columns && id != p.nodes[p.pred] {
      var s :| s in p.nodes && p.nodes[s] == id;
      assert s != p.pred;
    }
  }

  lemma BesideMeans(p: Pool, s: int, id: NodeId)
    ensures Connected(Without(p, s), id) <==> ConnectedBeside(p, {s}, id)
  {
    if t :| t in p.nodes && t != s && p.nodes[t] == id {
      assert t in Without(p, s).nodes && Without(p, s).nodes[t] == id;
    }
    if t :| t in Without(p, s).nodes && Without(p, s).nodes[t] == id {
      assert t in p.nodes && t !in {s} && p.nodes[t] == id;
    }
  }

  lemma ClosedColumns(st: State, s: int, id: NodeId)
    requires PoolInv(st.pool) && s in st.pool.nodes && Agreement(st)
    ensures id in CloseAndRemove(st, s).columns <==> id in st.columns && ConnectedBeside(st.pool, {s}, id)
  {
    BesideMeans(st.pool, s, st.pool.nodes[s]);
    if id in st.columns && id != st.pool.nodes[s] {
      var t :| t in st.pool.nodes && st.pool.nodes[t] == id;
      assert t !in {s};
    }
  }

  lemma PredColumns(st: State, pred: NodeId, found: int, id: NodeId)
    requires PoolInv(st.pool) && Possible(st, PredMessage(pred, found)) && Agreement(st)
    ensures id in Handle(st, PredMessage(pred, found)).columns <==> KeepsColumn(st, PredMessage(pred, found), id)
  {
    var p := st.pool;
    var q := if p.pred == CLOSED then p else Without(p, p.pred);
    var r := Without(q, found);
    if Degenerate(p, PredMessage(pred, found), found) {
      assert found in q.nodes && q.nodes[found] == pred;
      assert Connected(r, pred) <==> ConnectedBeside(p, {p.pred, found}, pred) by {
        if t :| t in p.nodes && t !in {p.pred, found} && p.nodes[t] == pred {
          assert t in r.nodes && r.nodes[t] == pred;
        }
      }
    }
  }

  lemma BrokenSuccColumns(st: State, next: NodeId, socket: int, found: int, id: NodeId)
    requires PoolInv(st.pool) && Possible(st, BrokenSucc(next, socket, found)) && Agreement(st)
    ensures id in Handle(st, BrokenSucc(next, socket, found)).columns <==>
            KeepsColumn(st, BrokenSucc(next, socket, found), id)
  {
    var p := st.pool;
    var st' := CloseDegenerateChord(st, found);
    var st'' := st'.(pool := st'.pool.(nodes := st'.pool.nodes[socket := next], succ := socket));
    ChordClosingKeepsInv(st, found);
    ChordClosingAgrees(st, found);
    if Degenerate(p, BrokenSucc(next, socket, found), found) {
      ClosedColumns(st, found, id);
    }
    MoreNodesAgree(st', st'');
    assert PoolInv(st''.pool);
    ClosedColumns(st'', p.succ, id);
    assert id == next ==> ConnectedBeside(st''.pool, {p.succ}, id) by {
      assert st''.pool.nodes[socket] == next;
    }
    if id != next {
      if t :| t in st''.pool.nodes && t != p.succ && st''.pool.nodes[t] == id {
        assert t in p.nodes && t !in {p.succ} && p.nodes[t] == id;
      }
      if t :| t in p.nodes && t != p.succ && p.nodes[t] == id {
        assert t in st''.pool.nodes && t !in {p.succ} && st''.pool.nodes[t] == id;
      }
    }
  }

  // The handlers keep exactly these columns.
  lemma ColumnsExactlyWhen(st: State, ev: Event, id: NodeId)
    requires PoolInv(st.pool) && Possible(st, ev) && Agreement(st)
    ensures id in Handle(st, ev).columns <==> KeepsColumn(st, ev, id)
  {
    match ev {
      case Broken(socket) => ClosedColumns(st, socket, id);
      case RemoveChord => ClosedColumns(st, st.pool.chord, id);
      case EntryFromSucc(_, _) => ClosedColumns(st, st.pool.succ, id);
      case EntryInRing(newcomer) => EntryInRingColumns(st, newcomer, id);
      case BrokenSucc(next, socket, found) => BrokenSuccColumns(st, next, socket, found, id);
      case PredMessage(pred, found) => PredColumns(st, pred, found, id);
      case _ =>
    }
  }
}
