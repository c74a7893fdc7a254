/** The routing table of one node as a value: what routing.c stores, independent of the slots it stores it in.

    A path is the list of nodes strictly between a node and the recipient, so its length is the hop count.  The path
    kept for neighbour `u` starts with `u`, and is empty exactly when `u` is the recipient itself. */
module RoutingSpec {
  import opened Nodes
  import opened Wrappers

  type Path = seq<NodeId>

  // `entries` is indexed by (recipient, neighbour); `forwarding` gives the neighbour chosen for each recipient.
  datatype Table = Table(entries: map<(NodeId, NodeId), Path>, forwarding: map<NodeId, NodeId>)

  datatype BestPath = BestPath(via: NodeId, path: Path)

  // One ROUTE message: `None` is the form without a path.
  datatype Announcement = Announcement(recipient: NodeId, path: Option<Path>)

  function Says(r: NodeId, p: Path): Announcement {
    Announcement(r, Some(p))
  }

  const EMPTY_TABLE := Table(map[], map[])

  function Entry(t: Table, r: NodeId, u: NodeId): Option<Path> {
    if (r, u) in t.entries then Some(t.entries[(r, u)]) else None
  }

  function Chosen(t: Table, r: NodeId): Option<NodeId> {
    if r in t.forwarding then Some(t.forwarding[r]) else None
  }

  // The shortest path a node uses towards `r`, together with the neighbour it goes through.
  function Best(t: Table, r: NodeId): Option<BestPath> {
    match Chosen(t, r)
    case None => None
    case Some(u) =>
      match Entry(t, r, u)
      case None => None
      case Some(p) => Some(BestPath(u, p))
  }

  // What node `self` tells its neighbours about `r`: its own best path with itself prepended.  About itself it says
  // `ROUTE self self self`, a path with no hops.
  function Payload(self: NodeId, t: Table, r: NodeId): Option<Path> {
    if r == self then Some([])
    else
      match Best(t, r)
      case None => None
      case Some(b) => Some([self] + b.path)
  }

  // A path through the receiving node itself counts as no path.
  function Clean(self: NodeId, p: Option<Path>): Option<Path> {
    if p.Some? && self in p.value then None else p
  }

  ghost predicate Minimal(t: Table, r: NodeId, u: NodeId) {
    && Entry(t, r, u).Some?
    && forall v :: Entry(t, r, v).Some? ==> |Entry(t, r, u).value| <= |Entry(t, r, v).value|
  }

  // The choice for `r` is a shortest entry; there is none exactly when the row has no entry; and `before`, the
  // previous choice, is kept whenever it is still one of the shortest.
  ghost predicate Selected(t: Table, before: Option<NodeId>, r: NodeId) {
    match Chosen(t, r)
    case None => forall v :: Entry(t, r, v).None?
    case Some(u) => Minimal(t, r, u) && (before.Some? && Minimal(t, r, before.value) ==> u == before.value)
  }

  ghost predicate TableInv(t: Table) {
    forall r :: Selected(t, Chosen(t, r), r)
  }

  // One call of update_routing_given_new_path at node `self`: `u` reported path `p` to `r`.
  ghost predicate Update(self: NodeId, t: Table, u: NodeId, r: NodeId, p: Option<Path>, t': Table, changed: bool) {
    if r == self || u == self then t' == t && !changed
    else
      && (forall q, v :: Entry(t', q, v) == if q == r && v == u then Clean(self, p) else Entry(t, q, v))
      && (forall q :: q != r ==> Chosen(t', q) == Chosen(t, q))
      && Selected(t', Chosen(t, r), r)
      && changed == (Best(t', r) != Best(t, r))
  }

  // The announcements made when a node's best paths go from those of `t` to those of `t'`: one for each recipient whose
  // best path changed, none for any other.
  ghost predicate AnnouncesChanges(self: NodeId, t: Table, t': Table, out: seq<Announcement>) {
    && (forall i, j :: 0 <= i < j < |out| ==> out[i].recipient != out[j].recipient)
    && (forall a :: a in out ==> a.recipient != self && a.path == Payload(self, t', a.recipient))
    && (forall r :: Best(t', r) != Best(t, r) <==> Announcement(r, Payload(self, t', r)) in out)
  }

  // One call of remove_routing_neighbor at node `self`.
  ghost predicate Removal(self: NodeId, t: Table, u: NodeId, t': Table, out: seq<Announcement>) {
    && (forall q, v :: Entry(t', q, v) == if v == u then None else Entry(t, q, v))
    && (forall q :: Selected(t', Chosen(t, q), q))
    && AnnouncesChanges(self, t, t', out)
  }

  // A removal in progress: the rows in `done` have been worked on.
  ghost predicate RemovalSoFar(self: NodeId, t: Table, u: NodeId, done: seq<NodeId>, t': Table,
                               out: seq<Announcement>) {
    && (forall q, v :: Entry(t', q, v) == if v == u && q in done then None else Entry(t, q, v))
    && (forall q :: q in done ==> Selected(t', Chosen(t, q), q))
    && (forall q :: q !in done ==> Chosen(t', q) == Chosen(t, q))
    && (forall a :: a in out ==> a.recipient in done)
    && AnnouncesChanges(self, t, t', out)
  }

  // One more recipient, not announced yet, has been worked on.
  lemma AnnouncesOneMore(self: NodeId, t: Table, t': Table, out: seq<Announcement>, q: NodeId, t'': Table,
                         changed: bool)
    requires AnnouncesChanges(self, t, t', out) && q != self
    requires forall a :: a in out ==> a.recipient != q
    requires Best(t', q) == Best(t, q) && changed == (Best(t'', q) != Best(t', q))
    requires forall p :: p != q ==> Best(t'', p) == Best(t', p)
    ensures AnnouncesChanges(self, t, t'', out + if changed then [Announcement(q, Payload(self, t'', q))] else [])
  {
  }

  lemma RemovalStep(self: NodeId, t: Table, u: NodeId, done: seq<NodeId>, t': Table, out: seq<Announcement>,
                    q: NodeId, t'': Table, changed: bool)
    requires RemovalSoFar(self, t, u, done, t', out) && q !in done && q != self && u != self
    requires Update(self, t', u, q, None, t'', changed)
    ensures RemovalSoFar(self, t, u, done + [q], t'',
                         out + if changed then [Announcement(q, Payload(self, t'', q))] else [])
  {
    assert forall p, v :: Entry(t'', p, v) == if v == u && p in done + [q] then None else Entry(t, p, v);
    forall p | p in done ensures Selected(t'', Chosen(t, p), p) {
      assert Selected(t', Chosen(t, p), p) && forall v :: Entry(t'', p, v) == Entry(t', p, v);
    }
    assert forall p :: p != q ==> Best(t'', p) == Best(t', p);
    assert Best(t', q) == Best(t, q);
    AnnouncesOneMore(self, t, t', out, q, t'', changed);
  }

  lemma RemovalDone(self: NodeId, t: Table, u: NodeId, done: seq<NodeId>, t': Table, out: seq<Announcement>)
    requires TableInv(t) && RemovalSoFar(self, t, u, done, t', out)
    requires forall q, v :: Entry(t, q, v).Some? ==> q in done
    ensures Removal(self, t, u, t', out)
  {
  }

  // The messages send_shortest_paths writes: the node itself first, then every recipient it has a row for, once.
  ghost predicate Dump(self: NodeId, t: Table, out: seq<Announcement>) {
    && |out| > 0 && out[0] == Announcement(self, Some([]))
    && (forall i, j :: 0 <= i < j < |out| ==> out[i].recipient != out[j].recipient)
    && (forall a :: a in out ==> a.path.Some? && a.path == Payload(self, t, a.recipient))
    && (forall r :: Payload(self, t, r).Some? ==> Announcement(r, Payload(self, t, r)) in out)
  }

  // A dump in progress: the rows in `done` have been worked on.
  ghost predicate DumpSoFar(self: NodeId, t: Table, done: seq<NodeId>, out: seq<Announcement>) {
    && |out| > 0 && out[0] == Announcement(self, Some([]))
    && (forall i, j :: 0 <= i < j < |out| ==> out[i].recipient != out[j].recipient)
    && (forall a :: a in out ==> a.path.Some? && a.path == Payload(self, t, a.recipient))
    && (forall a :: a in out ==> a.recipient == self || a.recipient in done)
    && (forall r :: r in done && Payload(self, t, r).Some? ==> Announcement(r, Payload(self, t, r)) in out)
  }

  lemma DumpStep(self: NodeId, t: Table, done: seq<NodeId>, out: seq<Announcement>, q: NodeId)
    requires DumpSoFar(self, t, done, out) && q != self && (Payload(self, t, q).Some? ==> q !in done)
    ensures DumpSoFar(self, t, done + [q],
                      out + if Payload(self, t, q).Some? then [Announcement(q, Payload(self, t, q))] else [])
  {
  }

  lemma UpdateKeepsInv(self: NodeId, t: Table, u: NodeId, r: NodeId, p: Option<Path>, t': Table, changed: bool)
    requires TableInv(t) && Update(self, t, u, r, p, t', changed)
    ensures TableInv(t')
  {
  }

  lemma RemovalKeepsInv(self: NodeId, t: Table, u: NodeId, t': Table, out: seq<Announcement>)
    requires Removal(self, t, u, t', out)
    ensures TableInv(t')
    ensures forall q :: Chosen(t', q) != Some(u)
  {
    forall q ensures Selected(t', Chosen(t', q), q) && Chosen(t', q) != Some(u) {
      assert Selected(t', Chosen(t, q), q);
    }
  }

  // When an update is announced, in terms of the input alone: the current choice is the reporting neighbour and its
  // path differs, or the reported path is usable and strictly shorter than what there was.
  lemma ChangedExactlyWhen(self: NodeId, t: Table, u: NodeId, r: NodeId, p: Option<Path>, t': Table, changed: bool)
    requires TableInv(t) && Update(self, t, u, r, p, t', changed)
    requires r != self && u != self
    ensures changed <==>
            if Chosen(t, r) == Some(u) then Clean(self, p) != Entry(t, r, u)
            else Clean(self, p).Some? && (Best(t, r).None? || |p.value| < |Best(t, r).value.path|)
  {
    assert Selected(t, Chosen(t, r), r);
    assert Entry(t', r, u) == Clean(self, p);
    assert forall v :: v != u ==> Entry(t', r, v) == Entry(t, r, v);
  }
}
