/** `Ring` and `NeighborAgreement` agree on how the handlers of ring.c move connections between roles. */
module RoleMoves {
  import opened Nodes
  import opened Wrappers
  import opened Connections
  import opened NeighborAgreement
  import opened ConnectionLife
  import L = RingLaws
  import R = Ring

  // Every connection has a socket; `CLOSED` is that of none.
  function SocketOf(sock: R.Conn -> int, c: Option<R.Conn>): int {
    if c.Some? then sock(c.value) else CLOSED
  }

  predicate SameRoles(sock: R.Conn -> int, p: R.Peer, q: Pool) {
    && q.newNode == SocketOf(sock, p.newNodeConn)
    && q.pred == SocketOf(sock, p.predConn)
    && q.succ == SocketOf(sock, p.succConn)
  }

  function RoleInRing(p: R.Peer, d: R.Conn): Role {
    if p.newNodeConn == Some(d) then NewNode
    else if p.predConn == Some(d) then Predecessor
    else if p.succConn == Some(d) then Successor
    else Gone
  }

  function FromNewNode(sock: R.Conn -> int, p: R.Peer, c: R.Conn, m: R.Message, found: int): Option<Event> {
    match m
    case Entry(id) =>
      if p.state == R.CONNECTED && p.succ != p.id then Some(EntryInRing(id))
      else if p.state == R.CONNECTED && id != p.id then Some(EntryWhileAlone(id, sock(R.Conn(p.id, id))))
      else Some(Broken(sock(c)))
    case Pred(id) => if p.state == R.DISCONNECTED then Some(Broken(sock(c))) else Some(PredMessage(id, found))
    case EndOfFile => Some(Broken(sock(c)))
    case Succ(_) => None
  }

  function FromSucc(sock: R.Conn -> int, p: R.Peer, c: R.Conn, m: R.Message, found: int): Option<Event> {
    match m
    case Entry(id) =>
      if id == p.id || R.ConnectedTo(p, id) || id == p.secondSucc then Some(LeaveRing)
      else Some(EntryFromSucc(id, sock(R.Conn(p.id, id))))
    case EndOfFile =>
      if p.state != R.CONNECTED then Some(LeaveRing)
      else if p.secondSucc == p.id then Some(Broken(sock(c)))
      else if p.predConn.None? then Some(LeaveRing)
      else Some(BrokenSucc(p.secondSucc, sock(R.Conn(p.id, p.secondSucc)), found))
    case _ => None
  }

  // What reading `m` from connection `c` is to the pool.
  function EventFor(sock: R.Conn -> int, p: R.Peer, c: R.Conn, m: R.Message, found: int): Option<Event> {
    if p.newNodeConn == Some(c) then FromNewNode(sock, p, c, m, found)
    else if p.predConn == Some(c) then
      if m.EndOfFile? && p.state == R.CONNECTED then Some(Broken(sock(c)))
      else if m.EndOfFile? || (m.Entry? && p.state == R.CONNECTING) then Some(LeaveRing)
      else None
    else if p.succConn == Some(c) then FromSucc(sock, p, c, m, found)
    else None
  }

  // A new predecessor takes over.
  lemma NewPredAgrees(sock: R.Conn -> int, p: R.Peer, c: R.Conn, id: NodeId, st: State, found: int)
    requires p.newNodeConn == Some(c) && p.state != R.DISCONNECTED
    requires PoolInv(st.pool) && SameRoles(sock, p, st.pool) && R.RolesDiffer(p)
    requires Possible(st, PredMessage(id, found))
    ensures SameRoles(sock, R.FromNewNode(p, c, R.Pred(id)).peer, Handle(st, PredMessage(id, found)).pool)
  {
    ChordClosingKeepsInv(st.(pool := if st.pool.pred == CLOSED then st.pool else Without(st.pool, st.pool.pred)),
                         found);
  }

  lemma NewNodeAgrees(sock: R.Conn -> int, p: R.Peer, c: R.Conn, m: R.Message, st: State, found: int)
    requires p.newNodeConn == Some(c)
    requires PoolInv(st.pool) && SameRoles(sock, p, st.pool) && R.RolesDiffer(p) && R.Handle(p, c, m).Continue?
    requires var ev := EventFor(sock, p, c, m, found); ev.Some? ==> Possible(st, ev.value)
    ensures var ev := EventFor(sock, p, c, m, found);
            SameRoles(sock, R.Handle(p, c, m).peer, if ev.Some? then Handle(st, ev.value).pool else st.pool)
  {
    if m.Pred? && p.state != R.DISCONNECTED {
      NewPredAgrees(sock, p, c, m.id, st, found);
    }
  }

  // The second successor becomes the successor.
  lemma ReplacedSuccAgrees(sock: R.Conn -> int, p: R.Peer, c: R.Conn, st: State, found: int)
    requires p.succConn == Some(c) && p.predConn.Some? && p.state == R.CONNECTED && p.secondSucc != p.id
    requires PoolInv(st.pool) && SameRoles(sock, p, st.pool) && R.RolesDiffer(p)
    requires Possible(st, BrokenSucc(p.secondSucc, sock(R.Conn(p.id, p.secondSucc)), found))
    ensures SameRoles(sock, R.BrokenSucc(p, c).peer,
                      Handle(st, BrokenSucc(p.secondSucc, sock(R.Conn(p.id, p.secondSucc)), found)).pool)
  {
    ChordClosingKeepsInv(st, found);
  }

  lemma BrokenSuccAgrees(sock: R.Conn -> int, p: R.Peer, c: R.Conn, m: R.Message, st: State, found: int)
    requires p.succConn == Some(c) && m.EndOfFile?
    requires PoolInv(st.pool) && SameRoles(sock, p, st.pool) && R.RolesDiffer(p) && R.Handle(p, c, m).Continue?
    requires var ev := EventFor(sock, p, c, m, found); ev.Some? ==> Possible(st, ev.value)
    ensures var ev := EventFor(sock, p, c, m, found);
            SameRoles(sock, R.Handle(p, c, m).peer, if ev.Some? then Handle(st, ev.value).pool else st.pool)
  {
    if p.predConn.Some? && p.state == R.CONNECTED && p.secondSucc != p.id && p.newNodeConn != Some(c)
       && p.predConn != Some(c) {
      ReplacedSuccAgrees(sock, p, c, st, found);
    }
  }

  lemma SuccAgrees(sock: R.Conn -> int, p: R.Peer, c: R.Conn, m: R.Message, st: State, found: int)
    requires p.succConn == Some(c)
    requires PoolInv(st.pool) && SameRoles(sock, p, st.pool) && R.RolesDiffer(p) && R.Handle(p, c, m).Continue?
    requires var ev := EventFor(sock, p, c, m, found); ev.Some? ==> Possible(st, ev.value)
    ensures var ev := EventFor(sock, p, c, m, found);
            SameRoles(sock, R.Handle(p, c, m).peer, if ev.Some? then Handle(st, ev.value).pool else st.pool)
  {
    if m.EndOfFile? {
      BrokenSuccAgrees(sock, p, c, m, st, found);
    }
  }

  // Reading a message moves the roles in the pool as it moves those of the ring node.
  lemma HandlersAgree(sock: R.Conn -> int, p: R.Peer, c: R.Conn, m: R.Message, st: State, found: int)
    requires PoolInv(st.pool) && SameRoles(sock, p, st.pool) && R.RolesDiffer(p) && R.Handle(p, c, m).Continue?
    requires var ev := EventFor(sock, p, c, m, found); ev.Some? ==> Possible(st, ev.value)
    ensures var ev := EventFor(sock, p, c, m, found);
            SameRoles(sock, R.Handle(p, c, m).peer, if ev.Some? then Handle(st, ev.value).pool else st.pool)
  {
    if p.newNodeConn == Some(c) {
      NewNodeAgrees(sock, p, c, m, st, found);
    } else if p.succConn == Some(c) {
      SuccAgrees(sock, p, c, m, st, found);
    }
  }

  // The socket of a connection plays the same role.
  lemma SameRoleInPool(sock: R.Conn -> int, p: R.Peer, d: R.Conn, q: Pool)
    requires PoolInv(q) && SameRoles(sock, p, q) && L.Consistent(p) && R.HasRole(p, d) && sock(d) != CLOSED
    ensures RoleOf(q, sock(d)) == RoleInRing(p, d)
  {
  }

  // And it closes the same connections: one with a role is closed in `Ring` exactly when its socket leaves the pool.
  lemma ClosesAgree(sock: R.Conn -> int, p: R.Peer, c: R.Conn, m: R.Message, st: State, found: int, d: R.Conn)
    requires PoolInv(st.pool) && SameRoles(sock, p, st.pool) && L.Consistent(p) && R.Handle(p, c, m).Continue?
    requires var ev := EventFor(sock, p, c, m, found); ev.Some? ==> Possible(st, ev.value)
    requires R.HasRole(p, d) && sock(d) != CLOSED && R.HasRole(p, c) && sock(c) != CLOSED
    ensures var ev := EventFor(sock, p, c, m, found);
            d in R.Handle(p, c, m).effects.closed <==>
            sock(d) !in (if ev.Some? then Handle(st, ev.value).pool else st.pool).nodes
  {
    var ev := EventFor(sock, p, c, m, found);
    SameRoleInPool(sock, p, d, st.pool);
    SameRoleInPool(sock, p, c, st.pool);
    if ev.Some? {
      LifeOfConnection(st, ev.value, sock(d));
    }
  }
}
