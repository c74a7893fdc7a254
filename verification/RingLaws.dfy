/** What all handlers of ring.c have in common, whatever they read: no connection is left open without a role, nobody is
    left without the news, and the timeout runs exactly while a predecessor is awaited. */
module RingLaws {
  import opened Nodes
  import opened Wrappers
  import opened Ring

  // The connection to the successor is the one this node has opened to it, the others come from other nodes, and no
  // two roles are played by the same connection.
  predicate Consistent(p: Peer) {
    && RolesDiffer(p)
    && (p.succConn.Some? ==> p.succ != p.id && p.succConn.value == Conn(p.id, p.succ))
    && (p.predConn.Some? ==> p.predConn.value.acceptor == p.id != p.predConn.value.opener)
    && (p.newNodeConn.Some? ==> p.newNodeConn.value.acceptor == p.id != p.newNodeConn.value.opener)
    && (p.state == CONNECTING ==> p.awaitingSucc || p.awaitingPred)
  }

  lemma FromSuccConsistent(p: Peer, m: Message)
    requires Consistent(p) && FromSucc(p, m).Continue?
    ensures Consistent(FromSucc(p, m).peer) && FromSucc(p, m).peer.id == p.id
  {
  }

  lemma BrokenConsistent(p: Peer, c: Conn)
    requires Consistent(p)
    ensures p.succConn == Some(c) ==> Consistent(BrokenSucc(p, c).peer) && BrokenSucc(p, c).peer.id == p.id
    ensures p.predConn == Some(c) ==> Consistent(BrokenPred(p, c).peer) && BrokenPred(p, c).peer.id == p.id
  {
  }

  lemma FromNewNodeConsistent(p: Peer, c: Conn, m: Message)
    requires Consistent(p) && p.newNodeConn == Some(c) && FromNewNode(p, c, m).Continue?
    ensures Consistent(FromNewNode(p, c, m).peer) && FromNewNode(p, c, m).peer.id == p.id
  {
  }

  // Every handler keeps it so, whatever is read.
  lemma ConsistentKept(p: Peer, c: Conn, m: Message)
    requires Consistent(p) && Handle(p, c, m).Continue?
    ensures Consistent(Handle(p, c, m).peer) && Handle(p, c, m).peer.id == p.id
  {
    if p.newNodeConn == Some(c) {
      FromNewNodeConsistent(p, c, m);
    } else if p.predConn == Some(c) || p.succConn == Some(c) {
      BrokenConsistent(p, c);
      if p.succConn == Some(c) && !m.EndOfFile? {
        FromSuccConsistent(p, m);
      }
    }
  }

  predicate ClosesFit(p: Peer, o: Outcome, d: Conn)
    requires o.Continue?
  {
    d in o.effects.closed <==> HasRole(p, d) && (!HasRole(o.peer, d) || d in o.effects.dialed)
  }

  predicate DialsFit(p: Peer, o: Outcome, d: Conn)
    requires o.Continue?
  {
    && (d in o.effects.dialed <==> HasRole(o.peer, d) && (!HasRole(p, d) || d in o.effects.closed))
    && (d in o.effects.dialed ==>
          && d == Conn(p.id, o.peer.succ) && o.peer.succConn == Some(d)
          && d in o.effects.sent && o.effects.sent[d] == Pred(p.id))
  }

  lemma FromNewNodeFits(p: Peer, c: Conn, m: Message, d: Conn)
    requires Consistent(p) && p.newNodeConn == Some(c) && FromNewNode(p, c, m).Continue? && !m.EndOfFile?
    ensures ClosesFit(p, FromNewNode(p, c, m), d) && DialsFit(p, FromNewNode(p, c, m), d)
  {
  }

  lemma FromSuccFits(p: Peer, m: Message, d: Conn)
    requires Consistent(p) && FromSucc(p, m).Continue?
    ensures ClosesFit(p, FromSucc(p, m), d) && DialsFit(p, FromSucc(p, m), d)
  {
  }

  lemma BrokenSuccFits(p: Peer, c: Conn, d: Conn)
    requires Consistent(p) && p.succConn == Some(c)
    ensures ClosesFit(p, BrokenSucc(p, c), d) && DialsFit(p, BrokenSucc(p, c), d)
  {
  }

  lemma FromPredFits(p: Peer, c: Conn, m: Message, d: Conn)
    requires Consistent(p) && p.predConn == Some(c)
    ensures ClosesFit(p, BrokenPred(p, c), d) && DialsFit(p, BrokenPred(p, c), d)
    ensures ClosesFit(p, FromPred(p, m), d) && DialsFit(p, FromPred(p, m), d)
  {
  }

  lemma HandleFits(p: Peer, c: Conn, m: Message, d: Conn)
    requires Consistent(p) && Handle(p, c, m).Continue?
    ensures ClosesFit(p, Handle(p, c, m), d) && DialsFit(p, Handle(p, c, m), d)
  {
    if p.newNodeConn == Some(c) {
      if !m.EndOfFile? {
        FromNewNodeFits(p, c, m, d);
      }
    } else if p.predConn == Some(c) {
      FromPredFits(p, c, m, d);
    } else if p.succConn == Some(c) {
      if m.EndOfFile? {
        BrokenSuccFits(p, c, d);
      } else {
        FromSuccFits(p, m, d);
      }
    }
  }

  // A connection that had a role is closed exactly when it has none any more, or is dialed anew.
  lemma ClosedExactlyWhen(p: Peer, c: Conn, m: Message, d: Conn)
    requires Consistent(p) && Handle(p, c, m).Continue?
    ensures var o := Handle(p, c, m);
            d in o.effects.closed <==> HasRole(p, d) && (!HasRole(o.peer, d) || d in o.effects.dialed)
  {
    HandleFits(p, c, m, d);
  }

  // A connection gets a role exactly when it is dialed; it leads to the successor, which is told who the new
  // predecessor is.
  lemma DialedExactlyWhen(p: Peer, c: Conn, m: Message, d: Conn)
    requires Consistent(p) && Handle(p, c, m).Continue?
    ensures var o := Handle(p, c, m);
            && (d in o.effects.dialed <==> HasRole(o.peer, d) && (!HasRole(p, d) || d in o.effects.closed))
            && (d in o.effects.dialed ==>
                  && d == Conn(p.id, o.peer.succ) && o.peer.succConn == Some(d)
                  && d in o.effects.sent && o.effects.sent[d] == Pred(p.id))
  {
    HandleFits(p, c, m, d);
  }

  // The predecessor always knows the successor: if either changes it is told.
  lemma PredecessorIsTold(p: Peer, c: Conn, m: Message)
    requires Consistent(p) && Handle(p, c, m).Continue?
    ensures var o := Handle(p, c, m);
            o.peer.predConn.Some? && o.peer.succ != p.id
            && (o.peer.succ != p.succ || o.peer.predConn != p.predConn) ==>
              o.peer.predConn.value in o.effects.sent && o.effects.sent[o.peer.predConn.value] == Succ(o.peer.succ)
  {
  }

  // A newcomer takes the place of the predecessor.
  predicate HandsOver(p: Peer, c: Conn, m: Message) {
    p.newNodeConn == Some(c) && m.Entry? && p.state == CONNECTED && p.succ != p.id && p.predConn.Some?
  }

  // And the predecessor that a newcomer replaces is told of the newcomer.
  lemma HandedOverIsTold(p: Peer, c: Conn, m: Message)
    requires Consistent(p) && HandsOver(p, c, m)
    ensures var o := Handle(p, c, m);
            && o.Continue? && o.peer.predConn == Some(c) && o.peer.succ == p.succ
            && p.predConn.value in o.effects.sent && o.effects.sent[p.predConn.value] == m
  {
  }

  // Nothing else is ever said.
  lemma SaidExactlyWhen(p: Peer, c: Conn, m: Message, d: Conn)
    requires Consistent(p) && Handle(p, c, m).Continue? && d in Handle(p, c, m).effects.sent
    ensures var o := Handle(p, c, m);
            match o.effects.sent[d]
            case Pred(i) => d in o.effects.dialed && i == p.id
            case Succ(i) => o.peer.predConn == Some(d) && i == o.peer.succ
            case Entry(i) => HandsOver(p, c, m) && p.predConn == Some(d) && m == Entry(i)
            case EndOfFile => false
  {
  }

  // The node's predecessor is gone, and there will be another one.
  predicate LosesPredecessor(p: Peer, c: Conn, m: Message) {
    p.predConn == Some(c) && p.newNodeConn != Some(c) && m.EndOfFile? && p.state == CONNECTED && p.secondSucc != p.id
  }

  predicate FindsPredecessor(p: Peer, c: Conn, m: Message) {
    p.newNodeConn == Some(c) && m.Pred? && p.state != DISCONNECTED
  }

  // The timeout is started exactly when the node loses its predecessor, and stopped exactly when it finds one.
  lemma TimerExactlyWhen(p: Peer, c: Conn, m: Message)
    requires Handle(p, c, m).Continue?
    ensures Handle(p, c, m).peer.timer <==>
            LosesPredecessor(p, c, m) || (p.timer && !FindsPredecessor(p, c, m))
    ensures LosesPredecessor(p, c, m) ==> Handle(p, c, m).peer.predConn.None?
    ensures FindsPredecessor(p, c, m) ==> Handle(p, c, m).peer.predConn == Some(c)
  {
  }

  // What makes a node leave the ring or give up joining.
  predicate GivesUp(p: Peer, c: Conn, m: Message) {
    if p.newNodeConn == Some(c) then false
    else if p.predConn == Some(c) then
      // It has connected to itself, or the ring goes away while it joins.
      (m.Entry? && p.state == CONNECTING) || (m.EndOfFile? && p.state != CONNECTED)
    else if p.succConn == Some(c) then
      match m
      case Entry(id) => id == p.id || id == p.secondSucc || ConnectedTo(p, id)
      case EndOfFile => p.state != CONNECTED || (p.secondSucc != p.id && p.predConn.None?)
      case _ => false
    else false
  }

  // Then it closes all its connections, keeps none and is disconnected; and it is disconnected for no other reason.
  lemma DisconnectedExactlyWhen(p: Peer, c: Conn, m: Message)
    requires Handle(p, c, m).Continue?
    ensures var o := Handle(p, c, m);
            && (o.peer.state == DISCONNECTED <==> p.state == DISCONNECTED || GivesUp(p, c, m))
            && (GivesUp(p, c, m) ==>
                  && o.effects == Effects({}, map[], o.effects.closed)
                  && forall d :: !HasRole(o.peer, d) && (d in o.effects.closed <==> HasRole(p, d)))
  {
  }

  predicate JoinFits(p: Peer, gaveUp: bool, p': Peer) {
    && p'.joinEnds == p.joinEnds + Bit(p.state == CONNECTING && p'.state == CONNECTED)
    && (p.state == CONNECTING ==> (p'.state == CONNECTED <==> !gaveUp && !p'.awaitingSucc && !p'.awaitingPred))
    && (p.state != CONNECTING ==> p'.state != CONNECTING)
  }

  lemma FromNewNodeJoins(p: Peer, c: Conn, m: Message)
    requires Consistent(p) && p.newNodeConn == Some(c) && FromNewNode(p, c, m).Continue? && !m.EndOfFile?
    ensures JoinFits(p, false, FromNewNode(p, c, m).peer)
  {
  }

  lemma FromSuccJoins(p: Peer, m: Message)
    requires Consistent(p) && p.succConn.Some? && FromSucc(p, m).Continue?
    ensures JoinFits(p, m.Entry? && (m.id == p.id || m.id == p.secondSucc || ConnectedTo(p, m.id)), FromSucc(p, m).peer)
  {
  }

  // A join ends exactly when the node that joins has heard from both neighbours, and only then on_join_end is called.
  lemma JoinEndsExactlyWhen(p: Peer, c: Conn, m: Message)
    requires Consistent(p) && Handle(p, c, m).Continue?
    ensures var p' := Handle(p, c, m).peer;
            && p'.joinEnds == p.joinEnds + Bit(p.state == CONNECTING && p'.state == CONNECTED)
            && (p.state == CONNECTING ==>
                  (p'.state == CONNECTED <==> !GivesUp(p, c, m) && !p'.awaitingSucc && !p'.awaitingPred))
            && (p.state != CONNECTING ==> p'.state != CONNECTING)
  {
    if p.newNodeConn == Some(c) {
      if !m.EndOfFile? {
        FromNewNodeJoins(p, c, m);
      }
    } else if p.predConn != Some(c) && p.succConn == Some(c) && !m.EndOfFile? {
      FromSuccJoins(p, m);
    }
  }

  // What makes the new node the predecessor; otherwise its connection is closed and nothing else happens.
  predicate Welcome(p: Peer, m: Message) {
    match m
    case Pred(_) => p.state != DISCONNECTED
    case Entry(id) => p.state == CONNECTED && (p.succ != p.id || id != p.id)
    case _ => false
  }

  lemma WelcomeExactlyWhen(p: Peer, c: Conn, m: Message)
    requires Consistent(p) && p.newNodeConn == Some(c) && Handle(p, c, m).Continue? && !m.Succ?
    ensures var o := Handle(p, c, m);
            && o.peer.newNodeConn.None? && (o.peer.predConn == Some(c) <==> Welcome(p, m))
            && (!Welcome(p, m) ==> o.peer == p.(newNodeConn := None) && o.effects == Effects({}, map[], {c}))
  {
  }

  // Which roles change hands.
  lemma RolesMove(p: Peer, c: Conn, m: Message)
    requires Consistent(p) && Handle(p, c, m).Continue? && !GivesUp(p, c, m)
    ensures var p' := Handle(p, c, m).peer;
            && p'.newNodeConn == (if p.newNodeConn == Some(c) && !m.Succ? then None else p.newNodeConn)
            && p'.predConn == (if p.newNodeConn == Some(c) && Welcome(p, m) then Some(c)
                               else if p.predConn == Some(c) && m.EndOfFile? then None
                               else p.predConn)
  {
  }

  lemma SuccessorConnectionMoves(p: Peer, c: Conn, m: Message)
    requires Consistent(p) && Handle(p, c, m).Continue? && !GivesUp(p, c, m)
    ensures var p' := Handle(p, c, m).peer;
            p'.succConn == if p'.succ == p.id then None
                           else if p'.succ != p.succ || (p.succConn == Some(c) && m.EndOfFile?)
                           then Some(Conn(p.id, p'.succ))
                           else p.succConn
  {
  }

  // What a node still waits for: SUCC from its successor, also after it has turned to another one, and PRED.
  lemma AwaitsExactlyWhen(p: Peer, c: Conn, m: Message)
    requires Consistent(p) && Handle(p, c, m).Continue? && !GivesUp(p, c, m)
    ensures var p' := Handle(p, c, m).peer;
            && (p'.awaitingSucc <==>
                  if p.succConn == Some(c) && m.EndOfFile? then true
                  else p.awaitingSucc && !(p.succConn == Some(c) && m.Succ? && m.id != p.succ))
            && (p'.awaitingPred <==> p.awaitingPred && !FindsPredecessor(p, c, m))
  {
  }

  // Where a node goes on from: the successor of its successor moves up, or the successor becomes the second one, or
  // the other node of a new ring of two is both, or what the successor says about itself is believed.
  lemma SuccessorsMove(p: Peer, c: Conn, m: Message)
    requires Consistent(p) && Handle(p, c, m).Continue? && !GivesUp(p, c, m)
    ensures var p' := Handle(p, c, m).peer;
            var fromSucc := p.succConn == Some(c);
            (p'.succ, p'.secondSucc) ==
            if fromSucc && m.EndOfFile? then (p.secondSucc, p.secondSucc)
            else if fromSucc && m.Entry? then (m.id, p.succ)
            else if fromSucc && m.Succ? && m.id != p.succ then (p.succ, m.id)
            else if p.newNodeConn == Some(c) && m.Entry? && p.state == CONNECTED && p.succ == p.id != m.id
            then (m.id, p.id)
            else (p.succ, p.secondSucc)
  {
  }

  // The program exits exactly when it would use the connection of a predecessor it has not got, or has one when alone.
  lemma ExitsExactlyWhen(p: Peer, c: Conn, m: Message)
    requires Consistent(p)
    ensures Handle(p, c, m).Exit? <==>
            || (p.succConn == Some(c) && m.Entry? && !GivesUp(p, c, m) && p.predConn.None?)
            || (p.newNodeConn == Some(c) && m.Entry? && p.state == CONNECTED
                && if p.succ == p.id then m.id != p.id && p.predConn.Some? else p.predConn.None?)
  {
  }

  // The end of connection `d` that is not at node `x` is where this is read.
  predicate IsAt(d: Conn, t: bool, x: NodeId) {
    Reader(d, !t) == x && Reader(d, t) != x
  }

  // So whoever is at the other end of a connection that loses its role hears of it.
  lemma LostConnectionIsEnded(s: System, c: Conn, toAcceptor: bool, s': System, d: Conn, t: bool)
    requires Next(s, Read(c, toAcceptor), s')
    requires var x := Reader(c, toAcceptor);
             var p := PeerOf(s, x);
             && p.id == x && Consistent(p) && Handle(p, c, Chan(s, c, toAcceptor)[0]).Continue?
             && HasRole(p, d) && !HasRole(PeerOf(s', x), d) && IsAt(d, t, x)
    ensures Chan(s', d, t) != [] && Chan(s', d, t)[|Chan(s', d, t)| - 1] == EndOfFile && Chan(s', d, !t) == []
  {
    var x, m := Reader(c, toAcceptor), Chan(s, c, toAcceptor)[0];
    ClosedExactlyWhen(PeerOf(s, x), c, m, d);
  }

  // And so does the opener of a connection that is refused, where nothing changes.
  lemma RefusedConnectionIsEnded(s: System, c: Conn, s': System)
    requires Next(s, Accept(c), s') && !Accepts(PeerOf(s, c.acceptor)) && c.opener != c.acceptor
    ensures PeerOf(s', c.acceptor) == PeerOf(s, c.acceptor)
    ensures Chan(s', c, false) == Chan(s, c, false) + [EndOfFile] && Chan(s', c, true) == []
  {
    assert Chan(s, c, false) + [] + [EndOfFile] == Chan(s, c, false) + [EndOfFile];
  }
}
