/** connections.c: the pool of connection slots and the pointers to the slots with a role. */
module Connections {
  import opened Nodes

  const CLOSED := -1
  const UNKNOWN: NodeId := -1
  const NO_SLOT := -1

  // The open sockets with the ID of the node at the other end, and the roles, as sockets (`CLOSED` is no socket).
  datatype Pool = Pool(nodes: map<int, NodeId>, newNode: int, pred: int, succ: int, chord: int)

  function Without(p: Pool, socket: int): Pool {
    Pool(p.nodes - {socket},
         if p.newNode == socket then CLOSED else p.newNode,
         if p.pred == socket then CLOSED else p.pred,
         if p.succ == socket then CLOSED else p.succ,
         if p.chord == socket then CLOSED else p.chord)
  }

  predicate IsInboundChord(p: Pool, socket: int) {
    socket in p.nodes && socket != p.newNode && socket != p.pred && socket != p.succ && socket != p.chord
  }

  class ConnectionPool {
    const sockets: array<int>
    const nodeIds: array<NodeId>
    // Slots, or `NO_SLOT`.
    var newNode: int
    var pred: int
    var succ: int
    var chord: int
    ghost var nodes: map<int, NodeId>

    ghost predicate IsOpen(slot: int)
      reads this, sockets
    {
      0 <= slot < sockets.Length && sockets[slot] != CLOSED
    }

    ghost predicate IsRole(slot: int)
      reads this, sockets
    {
      slot == NO_SLOT || IsOpen(slot)
    }

    ghost predicate Slots()
      reads this, sockets, nodeIds
    {
      && sockets.Length == nodeIds.Length && sockets != nodeIds
      && (forall i, j :: 0 <= i < j < sockets.Length && sockets[i] != CLOSED ==> sockets[i] != sockets[j])
      && (forall i :: 0 <= i < sockets.Length && sockets[i] != CLOSED ==>
            sockets[i] in nodes && nodes[sockets[i]] == nodeIds[i])
      && (forall s :: s in nodes ==> s != CLOSED && exists i :: 0 <= i < sockets.Length && sockets[i] == s)
    }

    ghost predicate Valid()
      reads this, sockets, nodeIds
    {
      Slots() && IsRole(newNode) && IsRole(pred) && IsRole(succ) && IsRole(chord)
    }

    ghost function Socket(slot: int): int
      reads this, sockets
    {
      if IsOpen(slot) then sockets[slot] else CLOSED
    }

    ghost function View(): Pool
      reads this, sockets
    {
      Pool(nodes, Socket(newNode), Socket(pred), Socket(succ), Socket(chord))
    }

    // init_connections_array
    constructor (size: nat)
      ensures Valid() && View() == Pool(map[], CLOSED, CLOSED, CLOSED, CLOSED) && sockets.Length == size
    {
      sockets := new int[size](_ => CLOSED);
      nodeIds := new NodeId[size](_ => UNKNOWN);
      newNode, pred, succ, chord := NO_SLOT, NO_SLOT, NO_SLOT, NO_SLOT;
      nodes := map[];
    }

    // The slot for a new socket, or `NO_SLOT` where the program exits because there is none left.
    method AddConnection(socket: int) returns (slot: int)
      requires Valid() && socket != CLOSED && socket !in nodes
      modifies this`nodes, sockets, nodeIds
      ensures slot == NO_SLOT <==> CLOSED !in old(sockets[..])
      ensures slot == NO_SLOT ==> View() == old(View())
      ensures slot != NO_SLOT ==>
                && IsOpen(slot) && Socket(slot) == socket
                && View() == old(View()).(nodes := old(nodes)[socket := UNKNOWN])
      ensures Valid()
    {
      for i := 0 to sockets.Length
        invariant CLOSED !in sockets[..i]
      {
        if sockets[i] == CLOSED {
          assert sockets[..][i] == CLOSED;
          sockets[i] := socket;
          nodeIds[i] := UNKNOWN;
          nodes := nodes[socket := UNKNOWN];
          forall s | s in nodes ensures exists k :: 0 <= k < sockets.Length && sockets[k] == s {
            if s == socket {
              assert sockets[i] == s;
            } else {
              var k :| 0 <= k < sockets.Length && old(sockets[k]) == s;
              assert sockets[k] == s;
            }
          }
          return i;
        }
      }
      assert sockets[..sockets.Length] == sockets[..];
      return NO_SLOT;
    }

    method Release(slot: int)
      requires Slots() && IsOpen(slot)
      modifies this`nodes, sockets
      ensures Slots() && nodes == old(nodes) - {old(sockets[slot])}
      ensures sockets[slot] == CLOSED && forall k :: 0 <= k < sockets.Length && k != slot ==>
              sockets[k] == old(sockets[k])
    {
      ghost var socket := sockets[slot];
      nodes := nodes - {socket};
      sockets[slot] := CLOSED;
      forall s | s in nodes ensures exists k :: 0 <= k < sockets.Length && sockets[k] == s {
        var k :| 0 <= k < sockets.Length && old(sockets[k]) == s;
        assert sockets[k] == s;
      }
    }

    method CloseConnection(slot: int)
      requires Valid() && (slot == NO_SLOT || 0 <= slot < sockets.Length)
      modifies this, sockets
      ensures Valid() && View() == if old(IsOpen(slot)) then Without(old(View()), old(Socket(slot))) else old(View())
      ensures Socket(slot) == CLOSED && nodes == old(nodes) - {old(Socket(slot))}
      ensures newNode == (if old(newNode) == slot then NO_SLOT else old(newNode))
      ensures pred == (if old(pred) == slot then NO_SLOT else old(pred))
      ensures succ == (if old(succ) == slot then NO_SLOT else old(succ))
      ensures chord == (if old(chord) == slot then NO_SLOT else old(chord))
      ensures forall i :: i != slot ==> Socket(i) == old(Socket(i))
    {
      if slot == NO_SLOT || sockets[slot] == CLOSED {
        return;
      }
      ghost var socket := sockets[slot];
      RoleOf(newNode, slot);
      RoleOf(pred, slot);
      RoleOf(succ, slot);
      RoleOf(chord, slot);
      Release(slot);
      ClearRoles(slot);
    }

    // Two open slots hold the same socket only if they are the same.
    lemma RoleOf(role: int, slot: int)
      requires Slots() && IsRole(role) && IsOpen(slot)
      ensures Socket(role) == Socket(slot) <==> role == slot
    {
    }

    method ClearRoles(slot: int)
      modifies this
      ensures newNode == (if old(newNode) == slot then NO_SLOT else old(newNode))
      ensures pred == (if old(pred) == slot then NO_SLOT else old(pred))
      ensures succ == (if old(succ) == slot then NO_SLOT else old(succ))
      ensures chord == (if old(chord) == slot then NO_SLOT else old(chord))
      ensures nodes == old(nodes)
    {
      if newNode == slot { newNode := NO_SLOT; }
      if pred == slot { pred := NO_SLOT; }
      if succ == slot { succ := NO_SLOT; }
      if chord == slot { chord := NO_SLOT; }
    }

    method FindConnectionBySocket(socket: int) returns (slot: int)
      requires Valid() && socket != CLOSED
      ensures slot == NO_SLOT <==> socket !in nodes
      ensures slot != NO_SLOT ==> IsOpen(slot) && Socket(slot) == socket
    {
      for i := 0 to sockets.Length
        invariant forall k :: 0 <= k < i ==> sockets[k] != socket
      {
        if sockets[i] == socket {
          return i;
        }
      }
      return NO_SLOT;
    }

    method FindConnectionByNodeId(id: NodeId) returns (slot: int)
      requires Valid()
      ensures slot == NO_SLOT <==> forall s :: s in nodes ==> nodes[s] != id
      ensures slot != NO_SLOT ==> IsOpen(slot) && nodes[Socket(slot)] == id
    {
      for i := 0 to sockets.Length
        invariant forall k :: 0 <= k < i ==> sockets[k] == CLOSED || nodeIds[k] != id
      {
        if sockets[i] != CLOSED && nodeIds[i] == id {
          return i;
        }
      }
      return NO_SLOT;
    }

    method InboundChord(slot: int) returns (b: bool)
      requires Valid() && IsOpen(slot)
      ensures b <==> IsInboundChord(View(), Socket(slot))
    {
      b := slot != newNode && slot != pred && slot != succ && slot != chord;
    }
  }
}
