/** The handlers of ring.c on the variables they update, proved to do what `Ring` says they do.

    A role pointer points to a slot, and every connection has a slot of its own, even if it leads where another one
    did. */
module RingNode {
  import opened Nodes
  import opened Wrappers
  import opened Ring

  class RingNode {
    const id: NodeId
    var state: ConnectionState
    var succ: NodeId
    var secondSucc: NodeId
    var awaitingSucc: bool
    var awaitingPred: bool
    // The connections this node has had, each in its slot.
    var slots: seq<Conn>
    var predConn: Option<nat>
    var succConn: Option<nat>
    var newNodeConn: Option<nat>
    var timer: bool
    var joinEnds: nat
    // What the handler that is running has done so far.
    var effects: Effects

    // The role pointers point to slots, no two of them to the same.
    ghost predicate Valid()
      reads this
    {
      && (newNodeConn.Some? ==> newNodeConn.value < |slots| && newNodeConn != predConn && newNodeConn != succConn)
      && (predConn.Some? ==> predConn.value < |slots| && predConn != succConn)
      && (succConn.Some? ==> succConn.value < |slots|)
    }

    static function ConnIn(slots: seq<Conn>, slot: Option<nat>): Option<Conn> {
      if slot.Some? && slot.value < |slots| then Some(slots[slot.value]) else None
    }

    function View(): Peer
      reads this
    {
      Peer(id, state, succ, secondSucc, awaitingSucc, awaitingPred,
           ConnIn(slots, predConn), ConnIn(slots, succConn), ConnIn(slots, newNodeConn), timer, joinEnds)
    }

    // The node and its effects are those of `o`, which is not an exit.
    ghost predicate Shows(o: Outcome)
      reads this
    {
      o == Continue(View(), effects)
    }

    constructor (self: NodeId)
      ensures Valid() && View() == Off(self) && effects == NOTHING
    {
      id, state, succ, secondSucc := self, DISCONNECTED, self, self;
      awaitingSucc, awaitingPred, timer, joinEnds := false, false, false, 0;
      predConn, succConn, newNodeConn, slots, effects := None, None, None, [], NOTHING;
    }

    // main.c, direct join to oneself: a ring of one node.
    method StartAlone()
      requires Valid()
      modifies this
      ensures Valid()
      ensures View() == old(View()).(state := CONNECTED, succ := id, secondSucc := id,
                                     awaitingSucc := false, awaitingPred := false)
      ensures effects == old(effects)
    {
      succ, secondSucc := id, id;
      state := CONNECTED;
      awaitingPred, awaitingSucc := false, false;
    }

    // main.c, a connection of another node that is accepted.
    method Accept(c: Conn)
      requires Valid() && Accepts(View())
      modifies this`slots, this`newNodeConn
      ensures Valid() && View() == old(View()).(newNodeConn := Some(c))
    {
      slots := slots + [c];
      newNodeConn := Some(|slots| - 1);
    }

    method Send(slot: nat, m: Message)
      requires slot < |slots|
      modifies this`effects
      ensures effects == old(effects).(sent := old(effects).sent[slots[slot] := m])
    {
      effects := effects.(sent := effects.sent[slots[slot] := m]);
    }

    // connect_to_node for the successor, and the first message to it.
    method ConnectToSucc(m: Message)
      requires Valid()
      modifies this`effects, this`slots, this`succConn
      ensures Valid() && View() == old(View()).(succConn := Some(Conn(id, succ)))
      ensures slots == old(slots) + [Conn(id, succ)] && succConn == Some(|old(slots)|)
      ensures effects == old(effects).(dialed := old(effects).dialed + {Conn(id, succ)},
                                       sent := old(effects).sent[Conn(id, succ) := m])
    {
      slots := slots + [Conn(id, succ)];
      effects := effects.(dialed := effects.dialed + {Conn(id, succ)});
      succConn := Some(|slots| - 1);
      Send(succConn.value, m);
    }

    // close_connection: no role pointer is left on a closed connection.
    method CloseConnection(slot: Option<nat>)
      requires Valid() && (slot.Some? ==> slot.value < |slots|)
      modifies this`effects, this`newNodeConn, this`predConn, this`succConn
      ensures Valid() && effects == old(effects).(closed := old(effects).closed + Open(ConnIn(slots, slot)))
      ensures newNodeConn == if old(newNodeConn) == slot then None else old(newNodeConn)
      ensures predConn == if old(predConn) == slot then None else old(predConn)
      ensures succConn == if old(succConn) == slot then None else old(succConn)
    {
      if slot.None? {
        return;
      }
      effects := effects.(closed := effects.closed + {slots[slot.value]});
      if newNodeConn == slot { newNodeConn := None; }
      if predConn == slot { predConn := None; }
      if succConn == slot { succConn := None; }
    }

    // The new node becomes the predecessor.
    method AdoptPred()
      requires Valid() && newNodeConn.Some?
      modifies this`predConn, this`newNodeConn
      ensures Valid() && predConn == old(newNodeConn)
      ensures View() == old(View()).(predConn := old(ConnIn(slots, newNodeConn)), newNodeConn := None)
    {
      predConn := newNodeConn;
      newNodeConn := None;
    }

    method LeaveRing()
      requires Valid()
      modifies this
      ensures Valid()
      ensures var o := Ring.LeaveRing(old(View()));
              && View() == o.peer
              && effects == old(effects).(closed := old(effects).closed + o.effects.closed)
    {
      CloseConnection(predConn);
      CloseConnection(succConn);
      CloseConnection(newNodeConn);
      state := DISCONNECTED;
    }

    method OnJoinEnd()
      requires Valid()
      modifies this`state, this`joinEnds
      ensures Valid() && View() == Ring.OnJoinEnd(old(View())) && effects == old(effects)
    {
      state := CONNECTED;
      joinEnds := joinEnds + 1;
    }

    // join_ring up to the point where it dials: nothing is known of the ring yet.
    method BeginJoin(target: NodeId)
      requires Valid()
      modifies this
      ensures Valid() && effects == old(effects)
      ensures View() == old(View()).(state := CONNECTING, succ := target, awaitingSucc := true, awaitingPred := true,
                                     predConn := None, newNodeConn := None)
    {
      succ := target;
      state := CONNECTING;
      awaitingSucc, awaitingPred := true, true;
      predConn, newNodeConn := None, None;
    }

    method JoinRing(target: NodeId)
      requires Valid() && effects == NOTHING
      modifies this
      ensures Valid() && Shows(Ring.JoinRing(old(View()), target))
    {
      BeginJoin(target);
      ConnectToSucc(Entry(id));
      timer := true;
    }

    // A SUCC message from the successor.
    method HandleSucc(i: NodeId)
      requires Valid() && effects == NOTHING
      modifies this
      ensures Valid() && Shows(FromSucc(old(View()), Succ(i)))
    {
      if i == succ {
        return;
      }
      secondSucc := i;
      awaitingSucc := false;
      if state == CONNECTING && !awaitingPred {
        OnJoinEnd();
      }
    }

    // The connection to the successor is closed, and the node that has entered behind it becomes the successor.
    method MoveSucc(i: NodeId)
      requires Valid()
      modifies this
      ensures Valid()
      ensures View() == old(View()).(secondSucc := old(succ), succ := i, succConn := None)
      ensures predConn == old(predConn)
      ensures effects == old(effects).(closed := old(effects).closed + Open(old(ConnIn(slots, succConn))))
    {
      CloseConnection(succConn);
      secondSucc := succ;
      succ := i;
    }

    // An ENTRY message from the successor.
    method HandleEntryFromSucc(i: NodeId) returns (exit: bool)
      requires Valid() && effects == NOTHING
      modifies this
      ensures Valid()
      ensures exit <==> FromSucc(old(View()), Entry(i)).Exit?
      ensures !exit ==> Shows(FromSucc(old(View()), Entry(i)))
    {
      exit := false;
      if i == id || ConnectedTo(View(), i) || i == secondSucc {
        LeaveRing();
        return;
      }
      if predConn.None? {
        return true;
      }
      Send(predConn.value, Succ(i));
      MoveSucc(i);
      ConnectToSucc(Pred(id));
    }

    method HandleMessageFromSucc(m: Message) returns (exit: bool)
      requires Valid() && effects == NOTHING && !m.EndOfFile?
      modifies this
      ensures Valid()
      ensures exit <==> FromSucc(old(View()), m).Exit?
      ensures !exit ==> Shows(FromSucc(old(View()), m))
    {
      exit := false;
      match m {
        case Succ(i) => HandleSucc(i);
        case Entry(i) => exit := HandleEntryFromSucc(i);
        case Pred(_) =>
      }
    }

    method HandleMessageFromPred(m: Message)
      requires Valid() && effects == NOTHING && !m.EndOfFile?
      modifies this
      ensures Valid() && Shows(FromPred(old(View()), m))
    {
      if m.Entry? && state == CONNECTING {
        LeaveRing();
      }
    }

    // An ENTRY message from a node that has just connected to a node alone in its ring.
    method HandleEntryAlone(i: NodeId) returns (exit: bool)
      requires Valid() && effects == NOTHING && newNodeConn.Some? && state == CONNECTED && succ == id && i != id
      modifies this
      ensures Valid()
      ensures exit <==> FromNewNode(old(View()), old(slots[newNodeConn.value]), Entry(i)).Exit?
      ensures !exit ==> Shows(FromNewNode(old(View()), old(slots[newNodeConn.value]), Entry(i)))
    {
      succ := i;
      secondSucc := id;
      Send(newNodeConn.value, Succ(succ));
      ConnectToSucc(Pred(id));
      if predConn.Some? {
        return true;
      }
      AdoptPred();
      return false;
    }

    // An ENTRY message from a node that has just connected.
    method HandleEntry(i: NodeId) returns (exit: bool)
      requires Valid() && effects == NOTHING && newNodeConn.Some?
      modifies this
      ensures Valid()
      ensures exit <==> FromNewNode(old(View()), old(slots[newNodeConn.value]), Entry(i)).Exit?
      ensures !exit ==> Shows(FromNewNode(old(View()), old(slots[newNodeConn.value]), Entry(i)))
    {
      exit := false;
      if state == DISCONNECTED || (state == CONNECTED && succ == id) {
        if state == DISCONNECTED || i == id {
          CloseConnection(newNodeConn);
          return;
        }
        exit := HandleEntryAlone(i);
      } else if state == CONNECTED {
        Send(newNodeConn.value, Succ(succ));
        if predConn.None? {
          return true;
        }
        Send(predConn.value, Entry(i));
        CloseConnection(predConn);
        AdoptPred();
      } else {
        CloseConnection(newNodeConn);
      }
    }

    // The new node becomes the predecessor in place of the one there was, and is told the successor.
    method ReplacePred()
      requires Valid() && effects == NOTHING && newNodeConn.Some?
      modifies this
      ensures Valid()
      ensures View() == old(View()).(predConn := old(ConnIn(slots, newNodeConn)), newNodeConn := None, timer := false,
                                     awaitingPred := false)
      ensures effects == Effects({}, map[old(slots[newNodeConn.value]) := Succ(succ)],
                                 Open(old(ConnIn(slots, predConn))))
    {
      CloseConnection(predConn);
      AdoptPred();
      timer := false;
      Send(predConn.value, Succ(succ));
      awaitingPred := false;
    }

    // A PRED message from a node that has just connected.
    method HandlePred(i: NodeId)
      requires Valid() && effects == NOTHING && newNodeConn.Some?
      modifies this
      ensures Valid() && Shows(FromNewNode(old(View()), old(slots[newNodeConn.value]), Pred(i)))
    {
      if state == DISCONNECTED {
        CloseConnection(newNodeConn);
        return;
      }
      ReplacePred();
      if state == CONNECTING && !awaitingSucc {
        OnJoinEnd();
      }
    }

    // The part of handle_broken_succ_socket in which the second successor becomes the successor, and the closing of the
    // broken connection.
    method ReplaceSucc()
      requires Valid() && effects == NOTHING && succConn.Some? && predConn.Some? && state == CONNECTED
               && secondSucc != id
      modifies this
      ensures Valid() && Shows(BrokenSucc(old(View()), old(slots[succConn.value])))
    {
      var broken := succConn;
      awaitingSucc := true;
      succ := secondSucc;
      Send(predConn.value, Succ(succ));
      ConnectToSucc(Pred(id));
      CloseConnection(broken);
    }

    // handle_broken_socket, for the connection to the successor.
    method HandleBrokenSucc()
      requires Valid() && effects == NOTHING && succConn.Some?
      modifies this
      ensures Valid() && Shows(BrokenSucc(old(View()), old(slots[succConn.value])))
    {
      if state != CONNECTED {
        LeaveRing();
      } else if secondSucc == id {
        awaitingSucc := true;
        succ := secondSucc;
        CloseConnection(succConn);
      } else if predConn.None? {
        awaitingSucc := true;
        succ := secondSucc;
        LeaveRing();
      } else {
        ReplaceSucc();
      }
    }

    // handle_broken_socket, for the connection to the predecessor.
    method HandleBrokenPred()
      requires Valid() && effects == NOTHING && predConn.Some?
      modifies this
      ensures Valid() && Shows(BrokenPred(old(View()), old(slots[predConn.value])))
    {
      var broken := predConn;
      if state != CONNECTED {
        LeaveRing();
        return;
      }
      predConn := None;
      if id != secondSucc {
        timer := true;
      }
      CloseConnection(broken);
    }

    // handle_message and handle_broken_socket, for the connection in `slot`.
    method Handle(slot: nat, m: Message) returns (exit: bool)
      requires Valid() && slot < |slots|
      // `Ring` tells connections apart by where they lead: no connection leads from and to where one with a role does.
      requires RolesDiffer(View())
      requires predConn == Some(slot) || succConn == Some(slot) || newNodeConn == Some(slot)
               || !HasRole(View(), slots[slot])
      modifies this
      ensures Valid()
      ensures exit <==> Ring.Handle(old(View()), old(slots[slot]), m).Exit?
      ensures !exit ==> Shows(Ring.Handle(old(View()), old(slots[slot]), m))
    {
      exit := false;
      effects := NOTHING;
      if newNodeConn == Some(slot) {
        match m {
          case EndOfFile => CloseConnection(newNodeConn);
          case Entry(i) => exit := HandleEntry(i);
          case Pred(i) => HandlePred(i);
          case Succ(_) =>
        }
      } else if predConn == Some(slot) {
        if m.EndOfFile? {
          HandleBrokenPred();
        } else {
          HandleMessageFromPred(m);
        }
      } else if succConn == Some(slot) {
        if m.EndOfFile? {
          HandleBrokenSucc();
        } else {
          exit := HandleMessageFromSucc(m);
        }
      }
    }
  }
}
