/** routing.c: the slot tables of one node, updated in place, proved against `RoutingSpec`. */
module RoutingTable {
  import opened Nodes
  import opened Wrappers
  import opened RoutingSpec
  import opened Sums

  const NO_NODE: NodeId := -1
  const NO_INDEX := -1
  const INVALID_PATH := -2

  // A fixed-size buffer of which the first `hopCount` cells are meaningful.
  datatype PathBuffer = PathBuffer(hopCount: int, nodes: seq<NodeId>)

  predicate WellFormed(p: PathBuffer) {
    p.hopCount == INVALID_PATH || 0 <= p.hopCount <= |p.nodes|
  }

  function View(p: PathBuffer): Option<Path>
    requires WellFormed(p)
  {
    if p.hopCount == INVALID_PATH then None else Some(p.nodes[..p.hopCount])
  }

  function ViewIn(p: Option<PathBuffer>): Option<Path>
    requires p.Some? ==> WellFormed(p.value)
  {
    if p.Some? then View(p.value) else None
  }

  // copy_path: only the meaningful prefix of the buffer is overwritten.
  function CopyPath(dest: PathBuffer, src: PathBuffer): (r: PathBuffer)
    requires |dest.nodes| == |src.nodes| && WellFormed(src)
    ensures |r.nodes| == |dest.nodes| && WellFormed(r) && View(r) == View(src)
  {
    if src.hopCount > 0 then PathBuffer(src.hopCount, src.nodes[..src.hopCount] + dest.nodes[src.hopCount..])
    else PathBuffer(src.hopCount, dest.nodes)
  }

  // are_paths_equal: the content is compared only when there is some.
  predicate ArePathsEqual(p: PathBuffer, q: PathBuffer)
    requires WellFormed(p) && WellFormed(q)
    ensures ArePathsEqual(p, q) <==> View(p) == View(q)
  {
    assert View(p).Some? ==> |View(p).value| == p.hopCount;
    assert View(q).Some? ==> |View(q).value| == q.hopCount;
    p.hopCount == q.hopCount && (p.hopCount <= 0 || p.nodes[..p.hopCount] == q.nodes[..q.hopCount])
  }

  datatype Slot = Index(i: nat) | Missing | Exhausted

  ghost predicate Distinct(ids: seq<NodeId>) {
    forall i, j :: 0 <= i < j < |ids| && ids[i] != NO_NODE ==> ids[i] != ids[j]
  }

  // What a lookup, with or without allocation, returns: the slot holding `id`; failing that a free slot, if one was
  // asked for; `Exhausted` is where the program exits with "ran out of space".
  ghost predicate LookupResult(ids: seq<NodeId>, id: NodeId, addIfMissing: bool, slot: Slot) {
    match slot
    case Index(i) => i < |ids| && (ids[i] == id || (addIfMissing && id !in ids && ids[i] == NO_NODE))
    case Missing => !addIfMissing && id !in ids
    case Exhausted => addIfMissing && id !in ids && NO_NODE !in ids
  }

  lemma SetKeepsOthers(ids: seq<NodeId>, i: nat, id: NodeId)
    requires i < |ids|
    ensures forall q :: q in ids && q != ids[i] ==> q in ids[i := id]
    ensures forall q :: q in ids[i := id] && q != id ==> q in ids
  {
    forall q | q in ids && q != ids[i] ensures q in ids[i := id] {
      var k :| 0 <= k < |ids| && ids[k] == q;
      assert ids[i := id][k] == q;
    }
  }

  // Every row and column the table mentions has a slot.
  ghost predicate Covers(t: Table, recipients: seq<NodeId>, neighbors: seq<NodeId>) {
    && (forall q, v :: Entry(t, q, v).Some? ==> q in recipients && v in neighbors && q != NO_NODE && v != NO_NODE)
    && (forall q :: Chosen(t, q).Some? ==> q in recipients && q != NO_NODE)
  }

  ghost function IdSet(ids: seq<NodeId>): set<NodeId> {
    set v | v in ids && v != NO_NODE
  }

  lemma IdSetAfterAdd(ids: seq<NodeId>, i: nat, id: NodeId)
    requires i < |ids| && id != NO_NODE && (ids[i] == id || ids[i] == NO_NODE)
    ensures IdSet(ids[i := id]) == IdSet(ids) + {id}
  {
    SetKeepsOthers(ids, i, id);
    assert ids[i := id][i] == id;
  }

  lemma IdSetAfterRemove(ids: seq<NodeId>, i: nat)
    requires i < |ids| && ids[i] != NO_NODE && Distinct(ids)
    ensures IdSet(ids[i := NO_NODE]) == IdSet(ids) - {ids[i]}
  {
    SetKeepsOthers(ids, i, NO_NODE);
  }

  // The first loop of get_recipient_index and get_neighbor_index.
  method FindSlot(ids: array<NodeId>, id: NodeId) returns (slot: Slot)
    ensures LookupResult(ids[..], id, false, slot)
  {
    for i := 0 to ids.Length
      invariant id !in ids[..i]
    {
      if ids[i] == id {
        return Index(i);
      }
    }
    return Missing;
  }

  // If all the IDs a node can meet come from a universe with at most one more ID than there are slots, one of them
  // being its own, allocation never runs out, whatever has been allocated and freed before.
  lemma CapacitySuffices(ids: seq<NodeId>, universe: set<NodeId>, self: NodeId, id: NodeId)
    requires Distinct(ids) && self !in ids && IdSet(ids) <= universe
    requires self in universe && id in universe && id != self && NO_NODE !in universe
    requires |universe| <= |ids| + 1
    ensures !LookupResult(ids, id, true, Exhausted)
  {
    if LookupResult(ids, id, true, Exhausted) {
      NoDupCount(ids, IdSet(ids));
      var others := universe - {self} - {id};
      assert |others| == |universe| - 2;
      assert IdSet(ids) <= others;
      SubsetCount(IdSet(ids), others);
    }
  }

  // A table and the nodes that have a column, and what is done with them.
  datatype Usage = Usage(table: Table, columns: set<NodeId>)

  datatype Operation =
    | Updating(neighbor: NodeId, recipient: NodeId, path: Option<Path>, changed: bool)
    | Removing(neighbor: NodeId, out: seq<Announcement>)

  // What the contracts of UpdateRoutingGivenNewPath and RemoveRoutingNeighbor say.
  ghost predicate Operates(self: NodeId, x: Usage, op: Operation, x': Usage) {
    match op
    case Updating(u, r, p, changed) =>
      && Update(self, x.table, u, r, p, x'.table, changed)
      && x'.columns == x.columns + if r == self || u == self then {} else {u}
    case Removing(u, out) => Removal(self, x.table, u, x'.table, out) && x'.columns == x.columns - {u}
  }

  ghost predicate Mentions(op: Operation, universe: set<NodeId>) {
    op.neighbor in universe && (op.Updating? ==> op.recipient in universe)
  }

  // Only nodes of `universe` have a row or a column.
  ghost predicate Within(x: Usage, universe: set<NodeId>) {
    x.columns <= universe && forall q :: Chosen(x.table, q).Some? ==> q in universe
  }

  lemma OperationStaysWithin(self: NodeId, x: Usage, op: Operation, x': Usage, universe: set<NodeId>)
    requires TableInv(x.table) && Within(x, universe) && Operates(self, x, op, x') && Mentions(op, universe)
    ensures TableInv(x'.table) && Within(x', universe)
  {
    match op {
      case Updating(u, r, p, changed) => UpdateKeepsInv(self, x.table, u, r, p, x'.table, changed);
      case Removing(u, out) =>
        RemovalKeepsInv(self, x.table, u, x'.table, out);
        forall q | Chosen(x'.table, q).Some? ensures q in universe {
          assert Selected(x'.table, Chosen(x.table, q), q) && Selected(x.table, Chosen(x.table, q), q);
          assert Entry(x.table, q, Chosen(x'.table, q).value).Some?;
        }
    }
  }

  ghost predicate OperatesAt(self: NodeId, xs: seq<Usage>, ops: seq<Operation>, i: nat, universe: set<NodeId>)
    requires |xs| == |ops| + 1 && i < |ops|
  {
    Operates(self, xs[i], ops[i], xs[i + 1]) && Mentions(ops[i], universe)
  }

  // After any sequence of updates and removals that mention only nodes of `universe`, only these have rows and columns.
  lemma {:induction false} HistoryStaysWithin(self: NodeId, xs: seq<Usage>, ops: seq<Operation>, i: nat,
                                              universe: set<NodeId>)
    requires |xs| == |ops| + 1 && xs[0] == Usage(EMPTY_TABLE, {}) && i < |xs|
    requires forall k :: 0 <= k < |ops| ==> OperatesAt(self, xs, ops, k, universe)
    ensures TableInv(xs[i].table) && Within(xs[i], universe)
  {
    if i == 0 {
      forall q ensures Selected(EMPTY_TABLE, Chosen(EMPTY_TABLE, q), q) {
      }
    } else {
      HistoryStaysWithin(self, xs, ops, i - 1, universe);
      assert OperatesAt(self, xs, ops, i - 1, universe);
      OperationStaysWithin(self, xs[i - 1], ops[i - 1], xs[i], universe);
    }
  }

  // The best path of a row whose choice is slot `i`, where path `p` is stored.
  function Through(ids: seq<NodeId>, i: int, p: Option<Path>): Option<BestPath> {
    if 0 <= i < |ids| && p.Some? then Some(BestPath(ids[i], p.value)) else None
  }

  // Comparing slots and paths is comparing neighbours and paths.
  lemma ThroughDiffers(ids: seq<NodeId>, i: int, p: Option<Path>, j: int, q: Option<Path>)
    requires Distinct(ids)
    requires i == NO_INDEX || (0 <= i < |ids| && ids[i] != NO_NODE && p.Some?)
    requires j == NO_INDEX || (0 <= j < |ids| && ids[j] != NO_NODE && q.Some?)
    ensures i != j || (j != NO_INDEX && p != q) <==> Through(ids, i, p) != Through(ids, j, q)
  {
  }

  // Before init_routing has run the tables hold zeros, that is, the ID 0 in every slot: a direct join to oneself, which
  // does not run it, leaves room for no other node.
  lemma WithoutInitOnlyNodeZeroFits(size: nat, id: NodeId)
    requires size > 0
    ensures LookupResult(seq(size, _ => 0), id, true, Exhausted) <==> id != 0
  {
    assert seq(size, _ => 0)[0] == 0;
  }

  // What becomes of a chat message; `NullConnection` is where the program follows a null pointer.
  datatype Forwarding = Dropped | Handed(via: NodeId) | NullConnection

  class RoutingTable {
    const selfId: NodeId
    const maxNodes: nat
    const recipientIds: array<NodeId>
    const neighborIds: array<NodeId>
    const routing: array2<PathBuffer>
    const forwarding: array<int>
    // Everything announce_new_path has broadcast, oldest first.
    var sent: seq<Announcement>
    // The table the slots stand for.
    ghost var table: Table

    ghost predicate Shape()
      reads this
    {
      && recipientIds.Length == routing.Length0 == forwarding.Length
      && neighborIds.Length == routing.Length1
      && recipientIds != neighborIds && recipientIds != forwarding && neighborIds != forwarding
      && selfId != NO_NODE
    }

    ghost predicate CellsMatch()
      requires Shape()
      reads this, recipientIds, neighborIds, routing
    {
      && (forall i, j :: 0 <= i < routing.Length0 && 0 <= j < routing.Length1 ==> |routing[i, j].nodes| == maxNodes)
      && (forall i, j :: 0 <= i < routing.Length0 && 0 <= j < routing.Length1
            && recipientIds[i] != NO_NODE && neighborIds[j] != NO_NODE
            ==> WellFormed(routing[i, j]) && View(routing[i, j]) == Entry(table, recipientIds[i], neighborIds[j]))
    }

    ghost predicate ChoicesMatch()
      requires Shape()
      reads this, recipientIds, neighborIds, forwarding
    {
      forall i :: 0 <= i < recipientIds.Length && recipientIds[i] != NO_NODE ==>
        match Chosen(table, recipientIds[i])
        case None => forwarding[i] == NO_INDEX
        case Some(u) => 0 <= forwarding[i] < neighborIds.Length && neighborIds[forwarding[i]] == u && u != NO_NODE
    }

    // The slots stand for `table`; rows may be allocated but empty, and a choice may be out of date.
    ghost predicate Represents()
      reads this, recipientIds, neighborIds, routing, forwarding
    {
      && Shape()
      && Distinct(recipientIds[..]) && Distinct(neighborIds[..])
      && selfId !in recipientIds[..] && selfId !in neighborIds[..]
      && CellsMatch() && ChoicesMatch() && Covers(table, recipientIds[..], neighborIds[..])
    }

    // The nodes that have a column.
    ghost function Neighbors(): set<NodeId>
      reads this, neighborIds
    {
      IdSet(neighborIds[..])
    }

    // Between calls every allocated row has a chosen neighbour, and every choice is a shortest path.
    ghost predicate Valid()
      reads this, recipientIds, neighborIds, routing, forwarding
    {
      && Represents()
      && TableInv(table)
      && forall q :: q in recipientIds[..] && q != NO_NODE ==> Chosen(table, q).Some?
    }

    // The nodes that have a row.
    ghost function Recipients(): set<NodeId>
      reads this, recipientIds
    {
      IdSet(recipientIds[..])
    }

    // Which nodes have a row depends only on the table, not on how its slots came to be used.
    lemma RowsAreTheChosen()
      requires Valid()
      ensures forall q :: q in Recipients() <==> Chosen(table, q).Some?
    {
    }

    lemma RowHasPayload(q: NodeId)
      requires Valid() && q in recipientIds[..] && q != NO_NODE
      ensures Payload(selfId, table, q).Some?
    {
    }

    // With as many slots as there are other nodes, no update of a table that only these nodes have got into runs out of
    // slots.
    lemma AllocationSucceeds(universe: set<NodeId>, neighborId: NodeId, recipientId: NodeId)
      requires Valid() && Within(Usage(table, Neighbors()), universe) && NO_NODE !in universe
      requires selfId in universe && |universe| <= recipientIds.Length + 1 && |universe| <= neighborIds.Length + 1
      requires neighborId in universe && recipientId in universe && neighborId != selfId && recipientId != selfId
      ensures !LookupResult(neighborIds[..], neighborId, true, Exhausted)
      ensures !LookupResult(recipientIds[..], recipientId, true, Exhausted)
    {
      RowsAreTheChosen();
      CapacitySuffices(neighborIds[..], universe, selfId, neighborId);
      CapacitySuffices(recipientIds[..], universe, selfId, recipientId);
    }

    // The tables once init_routing has run.
    constructor (self: NodeId, maxNodes: nat, rows: nat, columns: nat)
      requires self != NO_NODE
      ensures Valid() && table == EMPTY_TABLE && sent == [] && selfId == self && this.maxNodes == maxNodes
      ensures recipientIds.Length == rows && neighborIds.Length == columns
      ensures fresh(recipientIds) && fresh(neighborIds) && fresh(routing) && fresh(forwarding)
    {
      selfId := self;
      this.maxNodes := maxNodes;
      var r := new NodeId[rows](_ => NO_NODE);
      var c := new NodeId[columns](_ => NO_NODE);
      var f := new int[rows](_ => 0);
      recipientIds, neighborIds, forwarding := r, c, f;
      routing := new PathBuffer[rows, columns]((_, _) => PathBuffer(0, seq(maxNodes, _ => 0)));
      sent := [];
      table := EMPTY_TABLE;
    }

    method GetRecipientIndex(id: NodeId, addIfMissing: bool) returns (slot: Slot)
      requires Represents() && id != NO_NODE && (addIfMissing ==> id != selfId)
      modifies recipientIds, routing, forwarding
      ensures Represents()
      ensures LookupResult(old(recipientIds[..]), id, addIfMissing, slot)
      ensures slot.Index? ==> recipientIds[..] == old(recipientIds[..])[slot.i := id]
      ensures !slot.Index? ==> recipientIds[..] == old(recipientIds[..])
      ensures old(id in recipientIds[..]) || !addIfMissing ==>
                unchanged(routing) && unchanged(forwarding)
    {
      slot := FindSlot(recipientIds, id);
      if slot.Index? || !addIfMissing {
        return;
      }
      for i := 0 to recipientIds.Length
        invariant forall k :: 0 <= k < i ==> recipientIds[k] != NO_NODE
      {
        if recipientIds[i] == NO_NODE {
          recipientIds[i] := id;
          for j := 0 to routing.Length1
            modifies routing
            invariant forall k :: 0 <= k < j ==>
                        routing[i, k].hopCount == INVALID_PATH && |routing[i, k].nodes| == maxNodes
            invariant forall m, k :: 0 <= m < routing.Length0 && 0 <= k < routing.Length1 && (m != i || k >= j) ==>
                        routing[m, k] == old(routing[m, k])
          {
            routing[i, j] := routing[i, j].(hopCount := INVALID_PATH);
          }
          forwarding[i] := NO_INDEX;
          assert recipientIds[..] == old(recipientIds[..])[i := id];
          assert neighborIds[..] == old(neighborIds[..]);
          SetKeepsOthers(old(recipientIds[..]), i, id);
          return Index(i);
        }
      }
      return Exhausted;
    }

    method GetNeighborIndex(id: NodeId, addIfMissing: bool) returns (slot: Slot)
      requires Represents() && id != NO_NODE && (addIfMissing ==> id != selfId)
      modifies neighborIds, routing
      ensures Represents()
      ensures LookupResult(old(neighborIds[..]), id, addIfMissing, slot)
      ensures slot.Index? ==> neighborIds[..] == old(neighborIds[..])[slot.i := id]
      ensures !slot.Index? ==> neighborIds[..] == old(neighborIds[..])
      ensures old(id in neighborIds[..]) || !addIfMissing ==> unchanged(routing)
    {
      slot := FindSlot(neighborIds, id);
      if slot.Index? || !addIfMissing {
        return;
      }
      for i := 0 to neighborIds.Length
        invariant forall k :: 0 <= k < i ==> neighborIds[k] != NO_NODE
      {
        if neighborIds[i] == NO_NODE {
          neighborIds[i] := id;
          for j := 0 to routing.Length0
            modifies routing
            invariant forall k :: 0 <= k < j ==>
                        routing[k, i].hopCount == INVALID_PATH && |routing[k, i].nodes| == maxNodes
            invariant forall k, m :: 0 <= k < routing.Length0 && 0 <= m < routing.Length1 && (m != i || k >= j) ==>
                        routing[k, m] == old(routing[k, m])
          {
            routing[j, i] := routing[j, i].(hopCount := INVALID_PATH);
          }
          assert neighborIds[..] == old(neighborIds[..])[i := id];
          assert recipientIds[..] == old(recipientIds[..]);
          SetKeepsOthers(old(neighborIds[..]), i, id);
          return Index(i);
        }
      }
      return Exhausted;
    }

    // The search for the shortest valid entry of a row, the first one in slot order.
    method FindClosestNeighbor(row: nat) returns (closest: int)
      requires Represents() && row < recipientIds.Length && recipientIds[row] != NO_NODE
      ensures closest == NO_INDEX ==> forall v :: Entry(table, recipientIds[row], v).None?
      ensures closest != NO_INDEX ==>
                0 <= closest < neighborIds.Length && Minimal(table, recipientIds[row], neighborIds[closest])
      ensures closest != NO_INDEX ==> neighborIds[closest] != NO_NODE
    {
      closest := NO_INDEX;
      for ni := 0 to neighborIds.Length
        invariant closest == NO_INDEX || (0 <= closest < ni && IsPath(row, closest))
        invariant forall k :: 0 <= k < ni && IsPath(row, k) ==>
                    closest != NO_INDEX && routing[row, closest].hopCount <= routing[row, k].hopCount
      {
        if neighborIds[ni] != NO_NODE && routing[row, ni].hopCount != INVALID_PATH
           && (closest == NO_INDEX || routing[row, ni].hopCount < routing[row, closest].hopCount) {
          closest := ni;
        }
      }
      forall v | Entry(table, recipientIds[row], v).Some?
        ensures closest != NO_INDEX
        ensures |Entry(table, recipientIds[row], neighborIds[closest]).value|
                <= |Entry(table, recipientIds[row], v).value|
      {
        var k :| 0 <= k < neighborIds.Length && neighborIds[k] == v;
        assert IsPath(row, k);
      }
    }

    ghost predicate IsPath(row: nat, column: nat)
      requires Shape() && row < routing.Length0 && column < routing.Length1
      reads this, neighborIds, routing
    {
      neighborIds[column] != NO_NODE && routing[row, column].hopCount != INVALID_PATH
    }

    // The path as it will be stored: none if there is none or if it crosses this node.
    method CleanPath(pathIn: Option<PathBuffer>) returns (path: PathBuffer)
      requires pathIn.Some? ==> WellFormed(pathIn.value) && |pathIn.value.nodes| == maxNodes
      ensures WellFormed(path) && |path.nodes| == maxNodes
      ensures View(path) == Clean(selfId, ViewIn(pathIn))
    {
      path := PathBuffer(INVALID_PATH, seq(maxNodes, _ => 0));
      if pathIn.None? || pathIn.value.hopCount == INVALID_PATH {
        return;
      }
      for i := 0 to pathIn.value.hopCount
        invariant selfId !in pathIn.value.nodes[..i]
      {
        if pathIn.value.nodes[i] == selfId {
          assert pathIn.value.nodes[..pathIn.value.hopCount][i] == selfId;
          return;
        }
      }
      path := CopyPath(path, pathIn.value);
    }

    // Overwrites one entry; the choice for the row may now be out of date.
    method StoreEntry(row: nat, column: nat, path: PathBuffer)
      requires Represents() && row < recipientIds.Length && column < neighborIds.Length
      requires recipientIds[row] != NO_NODE && neighborIds[column] != NO_NODE
      requires WellFormed(path) && |path.nodes| == maxNodes
      modifies this`table, routing
      ensures Represents()
      ensures forall q, v :: Entry(table, q, v) == if q == recipientIds[row] && v == neighborIds[column] then View(path)
                                                   else old(Entry(table, q, v))
      ensures table.forwarding == old(table.forwarding)
    {
      ghost var before := table;
      ghost var key := (recipientIds[row], neighborIds[column]);
      assert Covers(before, recipientIds[..], neighborIds[..]);
      assert key.0 in recipientIds[..] && key.1 in neighborIds[..];
      routing[row, column] := CopyPath(routing[row, column], path);
      table := table.(entries := if View(path).Some? then table.entries[key := View(path).value]
                                 else table.entries - {key});
      assert recipientIds[..] == old(recipientIds[..]) && neighborIds[..] == old(neighborIds[..]);
      assert forall q, v :: Entry(table, q, v) == if (q, v) == key then View(path) else Entry(before, q, v);
      assert forall q :: Chosen(table, q) == Chosen(before, q);
      assert Covers(table, old(recipientIds[..]), old(neighborIds[..]));
    }

    // Records the choice for a row and frees the row if there is none.
    method RecordChoice(row: nat, closest: int)
      requires Represents() && row < recipientIds.Length && recipientIds[row] != NO_NODE
      requires closest == NO_INDEX || (0 <= closest < neighborIds.Length && neighborIds[closest] != NO_NODE)
      requires closest == NO_INDEX ==> forall v :: Entry(table, recipientIds[row], v).None?
      modifies this`table, recipientIds, forwarding
      ensures Represents()
      ensures table.entries == old(table.entries)
      ensures forall q :: Chosen(table, q) == if q != old(recipientIds[row]) then old(Chosen(table, q))
                                              else if closest == NO_INDEX then None else Some(neighborIds[closest])
      ensures recipientIds[..] == if closest == NO_INDEX then old(recipientIds[..])[row := NO_NODE]
              else old(recipientIds[..])
    {
      ghost var id, before := recipientIds[row], table;
      assert Covers(before, recipientIds[..], neighborIds[..]);
      assert id in recipientIds[..];
      if closest == NO_INDEX {
        recipientIds[row] := NO_NODE;
      }
      forwarding[row] := closest;
      table := table.(forwarding := if closest == NO_INDEX then table.forwarding - {id}
                                    else table.forwarding[id := neighborIds[closest]]);
      assert recipientIds[..] == if closest == NO_INDEX then old(recipientIds[..])[row := NO_NODE]
             else old(recipientIds[..]);
      assert neighborIds[..] == old(neighborIds[..]);
      SetKeepsOthers(old(recipientIds[..]), row, NO_NODE);
      assert forall q, v :: Entry(table, q, v) == Entry(before, q, v);
      assert forall q :: q != id ==> Chosen(table, q) == Chosen(before, q);
      assert Covers(table, recipientIds[..], neighborIds[..]);
    }

    // The path currently used for a row, copied out of the table.
    method CurrentPath(row: nat) returns (path: PathBuffer)
      requires Represents() && row < recipientIds.Length && recipientIds[row] != NO_NODE
      requires Selected(table, Chosen(table, recipientIds[row]), recipientIds[row])
      ensures WellFormed(path)
      ensures forwarding[row] == NO_INDEX ==> Best(table, recipientIds[row]).None?
      ensures forwarding[row] != NO_INDEX ==>
                && 0 <= forwarding[row] < neighborIds.Length && View(path).Some?
                && Best(table, recipientIds[row]) == Some(BestPath(neighborIds[forwarding[row]], View(path).value))
    {
      path := PathBuffer(INVALID_PATH, seq(maxNodes, _ => 0));
      if forwarding[row] != NO_INDEX {
        path := CopyPath(path, routing[row, forwarding[row]]);
      }
    }

    // Chooses the shortest path for a row again, keeping the previous choice if it is still among the shortest.
    method ChooseAgain(row: nat) returns (closest: int)
      requires Represents() && row < recipientIds.Length && recipientIds[row] != NO_NODE
      modifies this`table, recipientIds, forwarding
      ensures Represents() && table.entries == old(table.entries)
      ensures closest == NO_INDEX || (0 <= closest < neighborIds.Length && neighborIds[closest] != NO_NODE)
      ensures forall q :: Chosen(table, q) == if q != old(recipientIds[row]) then old(Chosen(table, q))
                                              else if closest == NO_INDEX then None else Some(neighborIds[closest])
      ensures Selected(table, old(Chosen(table, recipientIds[row])), old(recipientIds[row]))
      ensures recipientIds[..] == if closest == NO_INDEX then old(recipientIds[..])[row := NO_NODE]
              else old(recipientIds[..])
    {
      closest := FindClosestNeighbor(row);
      var previous := forwarding[row];
      if previous != NO_INDEX && closest != NO_INDEX
         && routing[row, previous].hopCount == routing[row, closest].hopCount {
        closest := previous;
      }
      RecordChoice(row, closest);
    }

    // Stores `path`, chooses again for the row and says whether its best path changed.
    method UpdateRow(recipient: nat, neighbor: nat, path: PathBuffer) returns (changed: bool)
      requires Represents() && TableInv(table) && recipient < recipientIds.Length && neighbor < neighborIds.Length
      requires recipientIds[recipient] != NO_NODE && neighborIds[neighbor] != NO_NODE
      requires WellFormed(path) && |path.nodes| == maxNodes
      modifies this`table, recipientIds, routing, forwarding
      ensures Represents()
      ensures forall q, v :: Entry(table, q, v) ==
                             if q == old(recipientIds[recipient]) && v == neighborIds[neighbor] then View(path)
                             else old(Entry(table, q, v))
      ensures forall q :: q != old(recipientIds[recipient]) ==> Chosen(table, q) == old(Chosen(table, q))
      ensures Selected(table, old(Chosen(table, recipientIds[recipient])), old(recipientIds[recipient]))
      ensures changed == (Best(table, old(recipientIds[recipient])) != old(Best(table, recipientIds[recipient])))
      ensures recipientIds[..] == if Chosen(table, old(recipientIds[recipient])).None?
                                  then old(recipientIds[..])[recipient := NO_NODE] else old(recipientIds[..])
    {
      assert Selected(table, Chosen(table, recipientIds[recipient]), recipientIds[recipient]);
      ghost var recipientId, ids := recipientIds[recipient], neighborIds[..];
      var oldClosestNeighbor := forwarding[recipient];
      var oldShortestPath := CurrentPath(recipient);
      StoreEntry(recipient, neighbor, path);
      ghost var stored := table;
      var closestNeighbor := ChooseAgain(recipient);
      assert forall q, v :: Entry(table, q, v) == Entry(stored, q, v);
      changed := oldClosestNeighbor != closestNeighbor
        || (closestNeighbor != NO_INDEX && !ArePathsEqual(oldShortestPath, routing[recipient, closestNeighbor]));
      ghost var p := if closestNeighbor == NO_INDEX then None else View(routing[recipient, closestNeighbor]);
      assert Best(table, recipientId) == Through(ids, closestNeighbor, p);
      ThroughDiffers(ids, oldClosestNeighbor, View(oldShortestPath), closestNeighbor, p);
    }

    // The row and the column for an entry, allocated if needed.
    method AllocateSlots(neighborId: NodeId, recipientId: NodeId)
      returns (neighbor: nat, recipient: nat, exhausted: bool)
      requires Represents() && neighborId != NO_NODE && recipientId != NO_NODE && neighborId != selfId
               && recipientId != selfId
      modifies recipientIds, neighborIds, routing, forwarding
      ensures Represents()
      ensures exhausted <==> LookupResult(old(neighborIds[..]), neighborId, true, Exhausted)
                             || LookupResult(old(recipientIds[..]), recipientId, true, Exhausted)
      ensures !exhausted ==> Neighbors() == old(Neighbors()) + {neighborId}
      ensures !exhausted ==>
                && neighbor < neighborIds.Length && neighborIds[..] == old(neighborIds[..])[neighbor := neighborId]
                && recipient < recipientIds.Length
                && recipientIds[..] == old(recipientIds[..])[recipient := recipientId]
                && (if neighborId in old(neighborIds[..]) then neighborIds[..] == old(neighborIds[..])
                    else old(neighborIds[..])[neighbor] == NO_NODE)
                && (if recipientId in old(recipientIds[..]) then old(recipientIds[..])[recipient] == recipientId
                    else old(recipientIds[..])[recipient] == NO_NODE)
    {
      neighbor, recipient, exhausted := 0, 0, false;
      var neighborSlot := GetNeighborIndex(neighborId, true);
      var recipientSlot := GetRecipientIndex(recipientId, true);
      if neighborSlot.Exhausted? || recipientSlot.Exhausted? {
        exhausted := true;
        return;
      }
      neighbor, recipient := neighborSlot.i, recipientSlot.i;
      IdSetAfterAdd(old(neighborIds[..]), neighbor, neighborId);
    }

    // The part of update_routing_given_new_path that follows the allocation.
    method UpdateAllocatedRow(neighbor: nat, recipient: nat, pathIn: Option<PathBuffer>) returns (changed: bool)
      requires Represents() && TableInv(table) && recipient < recipientIds.Length && neighbor < neighborIds.Length
      requires recipientIds[recipient] != NO_NODE && neighborIds[neighbor] != NO_NODE
      requires forall q :: q in recipientIds[..] && q != NO_NODE && q != recipientIds[recipient] ==>
               Chosen(table, q).Some?
      requires pathIn.Some? ==> WellFormed(pathIn.value) && |pathIn.value.nodes| == maxNodes
      modifies this`table, recipientIds, routing, forwarding
      ensures Valid()
      ensures Update(selfId, old(table), neighborIds[neighbor], old(recipientIds[recipient]), ViewIn(pathIn), table,
                     changed)
      ensures forall k :: 0 <= k < recipientIds.Length && k != recipient ==> recipientIds[k] == old(recipientIds[k])
    {
      ghost var recipientId := recipientIds[recipient];
      ghost var rows := recipientIds[..];
      assert rows[recipient] == recipientId && neighborIds[..][neighbor] == neighborIds[neighbor];
      var path := CleanPath(pathIn);
      changed := UpdateRow(recipient, neighbor, path);
      UpdateKeepsInv(selfId, old(table), neighborIds[neighbor], recipientId, ViewIn(pathIn), table, changed);
      forall q | q in recipientIds[..] && q != NO_NODE ensures Chosen(table, q).Some? {
        var k :| 0 <= k < recipientIds.Length && recipientIds[k] == q;
        assert rows[k] in rows;
      }
    }

    method UpdateRoutingGivenNewPath(neighborId: NodeId, recipientId: NodeId, pathIn: Option<PathBuffer>)
      returns (changed: bool, exhausted: bool)
      requires Valid() && neighborId != NO_NODE && recipientId != NO_NODE
      requires pathIn.Some? ==> WellFormed(pathIn.value) && |pathIn.value.nodes| == maxNodes
      modifies this`table, recipientIds, neighborIds, routing, forwarding
      ensures exhausted <==>
              && recipientId != selfId && neighborId != selfId
              && (LookupResult(old(neighborIds[..]), neighborId, true, Exhausted)
                  || LookupResult(old(recipientIds[..]), recipientId, true, Exhausted))
      ensures !exhausted ==>
                && Valid()
                && Update(selfId, old(table), neighborId, recipientId, ViewIn(pathIn), table, changed)
                && Neighbors() == old(Neighbors()) + (if recipientId == selfId || neighborId == selfId then {}
                                                      else {neighborId})
      ensures !exhausted && neighborId in old(neighborIds[..]) ==> neighborIds[..] == old(neighborIds[..])
      ensures !exhausted && recipientId in old(recipientIds[..]) ==>
                forall k :: 0 <= k < recipientIds.Length && old(recipientIds[k]) != recipientId ==>
                  recipientIds[k] == old(recipientIds[k])
    {
      changed, exhausted := false, false;
      if recipientId == selfId || neighborId == selfId {
        return;
      }
      var neighbor, recipient;
      neighbor, recipient, exhausted := AllocateSlots(neighborId, recipientId);
      if exhausted {
        return;
      }
      SetKeepsOthers(old(recipientIds[..]), recipient, recipientId);
      changed := UpdateAllocatedRow(neighbor, recipient, pathIn);
    }

    // What get_route_message prints for a row: this node, then the stored path; nothing without a row.
    method RouteMessage(recipientId: NodeId) returns (a: Announcement)
      requires Valid() && recipientId != NO_NODE && recipientId != selfId
      ensures a == Announcement(recipientId, Payload(selfId, table, recipientId))
    {
      var slot := FindSlot(recipientIds, recipientId);
      if slot == Missing {
        return Announcement(recipientId, None);
      }
      assert Selected(table, Chosen(table, recipientId), recipientId);
      var path := CurrentPath(slot.i);
      return Announcement(recipientId, Some([selfId] + path.nodes[..path.hopCount]));
    }

    method AnnounceNewPath(recipientId: NodeId)
      requires Valid() && recipientId != NO_NODE && recipientId != selfId
      modifies this`sent
      ensures sent == old(sent) + [Announcement(recipientId, Payload(selfId, table, recipientId))]
    {
      var a := RouteMessage(recipientId);
      sent := sent + [a];
    }

    method UpdateRoutingAndAnnounce(neighborId: NodeId, recipientId: NodeId, pathIn: Option<PathBuffer>)
      returns (changed: bool, exhausted: bool)
      requires Valid() && neighborId != NO_NODE && recipientId != NO_NODE
      requires pathIn.Some? ==> WellFormed(pathIn.value) && |pathIn.value.nodes| == maxNodes
      modifies this`table, this`sent, recipientIds, neighborIds, routing, forwarding
      ensures exhausted <==>
              && recipientId != selfId && neighborId != selfId
              && (LookupResult(old(neighborIds[..]), neighborId, true, Exhausted)
                  || LookupResult(old(recipientIds[..]), recipientId, true, Exhausted))
      ensures !exhausted ==>
                && Valid()
                && Update(selfId, old(table), neighborId, recipientId, ViewIn(pathIn), table, changed)
                && sent == old(sent) + if changed then [Announcement(recipientId, Payload(selfId, table, recipientId))]
                   else []
      ensures !exhausted && neighborId in old(neighborIds[..]) ==> neighborIds[..] == old(neighborIds[..])
      ensures !exhausted && recipientId in old(recipientIds[..]) ==>
                forall k :: 0 <= k < recipientIds.Length && old(recipientIds[k]) != recipientId ==>
                  recipientIds[k] == old(recipientIds[k])
    {
      changed, exhausted := UpdateRoutingGivenNewPath(neighborId, recipientId, pathIn);
      if !exhausted && changed {
        AnnounceNewPath(recipientId);
      }
    }

    method FreeColumn(column: nat)
      requires Valid() && column < neighborIds.Length && neighborIds[column] != NO_NODE
      requires forall q :: Entry(table, q, neighborIds[column]).None? && Chosen(table, q) != Some(neighborIds[column])
      modifies neighborIds
      ensures Valid()
      ensures Neighbors() == old(Neighbors()) - {old(neighborIds[column])}
    {
      IdSetAfterRemove(neighborIds[..], column);
      SetKeepsOthers(neighborIds[..], column, NO_NODE);
      neighborIds[column] := NO_NODE;
      assert neighborIds[..] == old(neighborIds[..])[column := NO_NODE];
    }

    // One turn of the loop of remove_routing_neighbor, which began with the table `first` when `start` had
    // been sent, and has announced `out`.
    method WithdrawFromRow(recipient: nat, neighborId: NodeId, ghost first: Table, ghost done: seq<NodeId>,
                           ghost start: seq<Announcement>, ghost out: seq<Announcement>)
      returns (ghost out': seq<Announcement>)
      requires Valid() && neighborId != NO_NODE && neighborId in neighborIds[..]
      requires recipient < recipientIds.Length
      requires recipientIds[recipient] != NO_NODE ==> recipientIds[recipient] !in done
      requires forall q, v :: Entry(first, q, v).Some? || Chosen(first, q).Some? ==> q != NO_NODE
      requires sent == start + out && RemovalSoFar(selfId, first, neighborId, done, table, out)
      modifies this`table, this`sent, recipientIds, neighborIds, routing, forwarding
      ensures Valid() && neighborIds[..] == old(neighborIds[..])
      ensures forall k :: recipient < k < recipientIds.Length ==> recipientIds[k] == old(recipientIds[k])
      ensures sent == start + out'
      ensures RemovalSoFar(selfId, first, neighborId, done + [old(recipientIds[recipient])], table, out')
    {
      ghost var before := table;
      var recipientId := recipientIds[recipient];
      if recipientId == NO_NODE {
        out' := out;
        return;
      }
      assert recipientIds[..][recipient] == recipientId;
      var changed, exhausted := UpdateRoutingAndAnnounce(neighborId, recipientId, None);
      RemovalStep(selfId, first, neighborId, done, before, out, recipientId, table, changed);
      out' := out + if changed then [Announcement(recipientId, Payload(selfId, table, recipientId))] else [];
    }

    // The loop of remove_routing_neighbor: withdraws the neighbour's path from every row.
    method WithdrawFromRows(neighborId: NodeId)
      requires Valid() && neighborId != NO_NODE && neighborId in neighborIds[..]
      modifies this`table, this`sent, recipientIds, neighborIds, routing, forwarding
      ensures Valid() && neighborIds[..] == old(neighborIds[..])
      ensures |old(sent)| <= |sent| && sent[..|old(sent)|] == old(sent)
      ensures RemovalSoFar(selfId, old(table), neighborId, old(recipientIds[..]), table, sent[|old(sent)|..])
    {
      ghost var rows, columns, first := recipientIds[..], neighborIds[..], table;
      ghost var out: seq<Announcement> := [];
      for recipient := 0 to recipientIds.Length
        invariant Valid() && neighborIds[..] == columns
        invariant forall k :: recipient <= k < recipientIds.Length ==> recipientIds[k] == rows[k]
        invariant sent == old(sent) + out
        invariant RemovalSoFar(selfId, first, neighborId, rows[..recipient], table, out)
      {
        assert rows[..recipient + 1] == rows[..recipient] + [recipientIds[recipient]];
        out := WithdrawFromRow(recipient, neighborId, first, rows[..recipient], old(sent), out);
      }
      assert rows[..recipientIds.Length] == rows;
      assert sent[|old(sent)|..] == out;
    }

    method RemoveRoutingNeighbor(neighborId: NodeId)
      requires Valid() && neighborId != NO_NODE
      modifies this`table, this`sent, recipientIds, neighborIds, routing, forwarding
      ensures Valid()
      ensures Neighbors() == old(Neighbors()) - {neighborId}
      ensures |old(sent)| <= |sent| && sent[..|old(sent)|] == old(sent)
      ensures Removal(selfId, old(table), neighborId, table, sent[|old(sent)|..])
    {
      var slot := FindSlot(neighborIds, neighborId);
      if slot == Missing {
        assert sent[|sent|..] == [];
        RemovalDone(selfId, table, neighborId, recipientIds[..], table, []);
        return;
      }
      WithdrawFromRows(neighborId);
      RemovalDone(selfId, old(table), neighborId, old(recipientIds[..]), table, sent[|old(sent)|..]);
      RemovalKeepsInv(selfId, old(table), neighborId, table, sent[|old(sent)|..]);
      FreeColumn(slot.i);
    }

    // send_shortest_paths to one connection: the messages written, in order.
    method SendShortestPaths() returns (out: seq<Announcement>)
      requires Valid()
      ensures Dump(selfId, table, out)
    {
      ghost var rows := recipientIds[..];
      out := [Announcement(selfId, Some([]))];
      for recipient := 0 to recipientIds.Length
        invariant DumpSoFar(selfId, table, rows[..recipient], out)
      {
        var recipientId := recipientIds[recipient];
        assert rows[..recipient + 1] == rows[..recipient] + [recipientId] && rows[recipient] == recipientId;
        DumpStep(selfId, table, rows[..recipient], out, recipientId);
        if recipientId != NO_NODE {
          RowHasPayload(recipientId);
          var a := RouteMessage(recipientId);
          out := out + [a];
        }
      }
      assert rows[..recipientIds.Length] == rows;
    }

    // forward_message, when there are connections to the nodes of `connected`.
    method ForwardMessage(recipientId: NodeId, connected: set<NodeId>) returns (f: Forwarding)
      requires Valid() && recipientId != NO_NODE
      ensures f == match Chosen(table, recipientId)
                   case None => Dropped
                   case Some(u) => if u in connected then Handed(u) else NullConnection
      ensures Neighbors() <= connected ==> f != NullConnection
    {
      var slot := FindSlot(recipientIds, recipientId);
      if slot == Missing {
        return Dropped;
      }
      assert recipientIds[..][slot.i] == recipientId;
      var neighborId := neighborIds[forwarding[slot.i]];
      assert neighborId in Neighbors();
      if neighborId !in connected {
        // There is a warning and no return.
        return NullConnection;
      }
      return Handed(neighborId);
    }
  }
}
