/** What a node holds for a neighbour, together with what it has still to read on all its connections to that neighbour,
    is what the neighbour uses now; and exactly which steps keep it so. */
module Synchronization {
  import opened Nodes
  import opened Wrappers
  import opened RoutingSpec
  import opened Network
  import opened LoopFreedom

  // The last thing `q` says about `r`, if it says anything.
  function LastWord(q: seq<Message>, r: NodeId): Option<Option<Path>> {
    if q == [] then None
    else
      var m := q[|q| - 1];
      if m.RouteMsg? && m.a.recipient == r then Some(m.a.path) else LastWord(q[..|q| - 1], r)
  }

  lemma {:induction false} LastWordAppend(q: seq<Message>, w: seq<Message>, r: NodeId)
    ensures LastWord(q + w, r) == if LastWord(w, r).Some? then LastWord(w, r) else LastWord(q, r)
    decreases |w|
  {
    if w == [] {
      assert q + w == q;
    } else {
      assert (q + w)[..|q + w| - 1] == q + w[..|w| - 1];
      LastWordAppend(q, w[..|w| - 1], r);
    }
  }

  lemma LastWordTail(q: seq<Message>, r: NodeId)
    requires q != []
    ensures LastWord(q, r) == if LastWord(q[1..], r).Some? then LastWord(q[1..], r)
                              else if q[0].RouteMsg? && q[0].a.recipient == r then Some(q[0].a.path) else None
  {
    assert q == [q[0]] + q[1..] && [q[0]][..0] == [];
    LastWordAppend([q[0]], q[1..], r);
  }

  // A batch with at most one announcement per recipient.
  lemma {:induction false} LastWordOfBatch(out: seq<Announcement>, r: NodeId)
    requires forall i, j :: 0 <= i < j < |out| ==> out[i].recipient != out[j].recipient
    ensures LastWord(Wrap(out), r).None? ==> forall a :: a in out ==> a.recipient != r
    ensures LastWord(Wrap(out), r).Some? ==> Announcement(r, LastWord(Wrap(out), r).value) in out
  {
    if out != [] {
      var front := out[..|out| - 1];
      LastWordOfBatch(front, r);
      assert Wrap(out)[..|out| - 1] == Wrap(front) && out == front + [out[|out| - 1]];
    }
  }

  lemma BatchSays(out: seq<Announcement>, r: NodeId, p: Option<Path>)
    requires forall i, j :: 0 <= i < j < |out| ==> out[i].recipient != out[j].recipient
    requires Announcement(r, p) in out
    ensures LastWord(Wrap(out), r) == Some(p)
  {
    LastWordOfBatch(out, r);
  }

  // The other end is open, so what its node announces is written there.
  predicate Attended(s: Net, f: End) {
    Other(f) in s.open
  }

  predicate Mentions(s: Net, f: End, r: NodeId) {
    Readable(s, f) && LastWord(Inbox(s, f), r).Some?
  }

  // `u` writes to `n`, and `n` reads it or will.
  ghost predicate Linked(s: Net, u: NodeId, n: NodeId) {
    exists f :: Joins(f, u, n) && Readable(s, f) && Attended(s, f)
  }

  // `u` has written its table on a connection to `n`.
  ghost predicate Dumped(s: Net, u: NodeId, n: NodeId) {
    exists f :: Joins(f, u, n) && Readable(s, f) && Introduced(s, Other(f))
  }

  ghost predicate Unmentioned(s: Net, u: NodeId, n: NodeId, r: NodeId) {
    forall f :: Joins(f, u, n) ==> !Mentions(s, f, r)
  }

  // What `n` is to hold for `u` in the end.
  function Due(s: Net, u: NodeId, n: NodeId, r: NodeId): Option<Path> {
    Clean(n, Payload(u, Tab(s, u), r))
  }

  predicate SaysDue(s: Net, f: End, r: NodeId) {
    Mentions(s, f, r) ==> Clean(f.node, LastWord(Inbox(s, f), r).value) == Due(s, f.peer, f.node, r)
  }

  // As it should be, or nothing at all as long as `u` has not written its table.
  ghost predicate EntryDue(s: Net, u: NodeId, n: NodeId, r: NodeId) {
    || Entry(Tab(s, n), r, u) == Due(s, u, n, r)
    || (Entry(Tab(s, n), r, u).None? && !Dumped(s, u, n))
  }

  // Everything unread that `u` has said to `n` about `r` ends with what `u` uses now; if there is nothing, `n` holds
  // it.
  ghost predicate InStep(s: Net, u: NodeId, n: NodeId, r: NodeId) {
    && (forall f :: Joins(f, u, n) ==> SaysDue(s, f, r))
    && (Unmentioned(s, u, n, r) ==> EntryDue(s, u, n, r))
  }

  ghost predicate Synchronized(s: Net) {
    forall u, n, r :: r != n && Linked(s, u, n) ==> InStep(s, u, n, r)
  }

  // The last word about `r` on a connection that was closed without being read.
  ghost predicate LosesWord(s: Net, s': Net, u: NodeId, n: NodeId, r: NodeId) {
    exists f :: Joins(f, u, n) && Mentions(s, f, r) && !Readable(s', f)
  }

  // The two things that can go wrong in a step.  What `u` uses changes, or `n` is connected to it anew, while on a
  // connection on which `u` cannot correct it something else is unread.  And what `n` holds is replaced or what was
  // unread is lost, and nothing that is left will make up for it.
  ghost predicate OrderlyFor(s: Net, s': Net, u: NodeId, n: NodeId, r: NodeId) {
    && (Due(s', u, n, r) != Due(s, u, n, r) || !Linked(s, u, n) ==>
          forall f :: Joins(f, u, n) && !(Attended(s, f) && Attended(s', f)) ==> SaysDue(s', f, r))
    && (LosesWord(s, s', u, n, r) || Entry(Tab(s', n), r, u) != Entry(Tab(s, n), r, u) || !Linked(s, u, n) ==>
          Unmentioned(s', u, n, r) ==> EntryDue(s', u, n, r))
  }

  ghost predicate Orderly(s: Net, s': Net) {
    forall u, n, r :: r != n && Linked(s', u, n) ==> OrderlyFor(s, s', u, n, r)
  }

  // How a step may treat what is unread at `f`: leave it as it is, add what `u` uses now, or let it be read.
  ghost predicate WordKept(s: Net, s': Net, f: End, r: NodeId) {
    Readable(s', f) ==>
      || LastWord(Inbox(s', f), r) == Some(Payload(f.peer, Tab(s', f.peer), r))
      || (if Readable(s, f) then LastWord(Inbox(s', f), r) == LastWord(Inbox(s, f), r)
          else LastWord(Inbox(s', f), r).None?)
  }

  // How a step may treat all that is between two nodes.
  ghost predicate WordsKept(s: Net, s': Net, u: NodeId, n: NodeId, r: NodeId) {
    && (forall f :: Joins(f, u, n) ==> WordKept(s, s', f, r))
    && (Payload(u, Tab(s', u), r) != Payload(u, Tab(s, u), r) ==>
          forall f :: Joins(f, u, n) && Readable(s', f) && Attended(s', f) ==>
            Attended(s, f) && LastWord(Inbox(s', f), r) == Some(Payload(u, Tab(s', u), r)))
    && (Dumped(s', u, n) ==> Dumped(s, u, n) || (Unmentioned(s', u, n, r) ==> Due(s', u, n, r).None?))
  }

  lemma KeepsInStep(s: Net, s': Net, u: NodeId, n: NodeId, r: NodeId)
    requires Linked(s', u, n) && OrderlyFor(s, s', u, n, r) && (Linked(s, u, n) ==> InStep(s, u, n, r))
    requires WordsKept(s, s', u, n, r)
    ensures InStep(s', u, n, r)
  {
    forall f | Joins(f, u, n) ensures SaysDue(s', f, r) {
      assert WordKept(s, s', f, r);
    }
  }

  // A node that announces every change says what it uses now, or nothing about what has not changed.
  lemma AnnouncedWord(u: NodeId, t: Table, t': Table, q: seq<Message>, out: seq<Announcement>, r: NodeId)
    requires AnnouncesChanges(u, t, t', out)
    ensures LastWord(q + Wrap(out), r) == Some(Payload(u, t', r))
            || (LastWord(q + Wrap(out), r) == LastWord(q, r) && Payload(u, t', r) == Payload(u, t, r))
  {
    LastWordAppend(q, Wrap(out), r);
    LastWordOfBatch(out, r);
    if LastWord(Wrap(out), r).None? {
      assert Announcement(r, Payload(u, t', r)) !in out;
    }
  }

  // A node that writes its table says what it uses now, or nothing about what it has no path to.
  lemma DumpedWord(u: NodeId, t: Table, q: seq<Message>, out: seq<Announcement>, r: NodeId)
    requires Dump(u, t, out)
    ensures LastWord(q + Wrap(out), r) == Some(Payload(u, t, r))
            || (LastWord(q + Wrap(out), r) == LastWord(q, r) && Payload(u, t, r).None?)
  {
    LastWordAppend(q, Wrap(out), r);
    LastWordOfBatch(out, r);
    if LastWord(Wrap(out), r).None? {
      assert Announcement(r, Payload(u, t, r)) !in out;
    }
  }

  lemma ReactionAnnouncesChanges(nodes: set<NodeId>, s: Net, e: End, changed: bool, s': Net)
    requires LoopFree(nodes, s) && DeliverStep(s, e, changed, s')
    ensures AnnouncesChanges(e.node, Tab(s, e.node), Tab(s', e.node),
                             Reaction(e.node, Tab(s', e.node), Inbox(s, e)[0].a.recipient, changed))
  {
    var a := Inbox(s, e)[0].a;
    assert GoodInbox(nodes, s, e) && RouteMsg(a) in Inbox(s, e) && GoodEnd(nodes, e);
    ReceiveKeepsGood(nodes, e.node, Tab(s, e.node), e.peer, a, Tab(s', e.node), changed);
    var out := Reaction(e.node, Tab(s', e.node), a.recipient, changed);
    assert changed ==> out[0] in out;
  }

  // Reading a message does to the table exactly what it says.
  lemma DeliveredEntry(nodes: set<NodeId>, s: Net, e: End, changed: bool, s': Net, r: NodeId, u: NodeId)
    requires LoopFree(nodes, s) && DeliverStep(s, e, changed, s') && r != e.node
    ensures Entry(Tab(s', e.node), r, u) == if u == e.peer && Inbox(s, e)[0].a.recipient == r
                                            then Clean(e.node, Inbox(s, e)[0].a.path) else Entry(Tab(s, e.node), r, u)
  {
    assert GoodInbox(nodes, s, e) && RouteMsg(Inbox(s, e)[0].a) in Inbox(s, e) && GoodEnd(nodes, e);
  }

  lemma ConnectWords(nodes: set<NodeId>, s: Net, e: End, out: seq<Announcement>, s': Net, u: NodeId, n: NodeId,
                     r: NodeId)
    requires ConnectStep(nodes, s, e, out, s')
    ensures WordsKept(s, s', u, n, r)
  {
    DumpedWord(e.node, Tab(s, e.node), [Hello], out, r);
    assert LastWord([Hello], r).None? by {
      assert [Hello][..0] == [];
    }
  }

  lemma AcceptWords(s: Net, e: End, s': Net, u: NodeId, n: NodeId, r: NodeId)
    requires AcceptStep(s, e, s')
    ensures WordsKept(s, s', u, n, r)
  {
  }

  lemma GreetedInbox(nodes: set<NodeId>, s: Net, e: End, out: seq<Announcement>, s': Net, f: End, r: NodeId)
    requires LoopFree(nodes, s) && GreetStep(s, e, out, s')
    ensures WordKept(s, s', f, r) && (Readable(s', f) <==> Readable(s, f))
    ensures f == Other(e) && Payload(e.node, Tab(s, e.node), r).Some? ==> LastWord(Inbox(s', f), r).Some?
    ensures f != e ==> (Introduced(s', f) <==> Introduced(s, f))
  {
    DumpedWord(e.node, Tab(s, e.node), Inbox(s, Other(e)), out, r);
    LastWordTail(Inbox(s, e), r);
    assert GoodEnd(nodes, e);
  }

  lemma GreetWords(nodes: set<NodeId>, s: Net, e: End, out: seq<Announcement>, s': Net, u: NodeId, n: NodeId, r: NodeId)
    requires LoopFree(nodes, s) && GreetStep(s, e, out, s')
    ensures WordsKept(s, s', u, n, r)
  {
    forall f | Joins(f, u, n)
      ensures WordKept(s, s', f, r) && (Readable(s', f) <==> Readable(s, f))
      ensures Other(f) != e ==> (Introduced(s', Other(f)) <==> Introduced(s, Other(f)))
    {
      GreetedInbox(nodes, s, e, out, s', f, r);
      GreetedInbox(nodes, s, e, out, s', Other(f), r);
    }
    GreetedInbox(nodes, s, e, out, s', Other(e), r);
  }

  lemma GreetedBackInbox(nodes: set<NodeId>, s: Net, e: End, f: End, out: seq<Announcement>, s': Net, g: End, r: NodeId)
    requires LoopFree(nodes, s) && GreetBackStep(s, e, f, out, s')
    ensures WordKept(s, s', g, r) && (Readable(s', g) <==> Readable(s, g) || g == f || g == Other(f))
    ensures g == Other(f) && Payload(e.node, Tab(s, e.node), r).Some? ==> Mentions(s', g, r)
    ensures g != e && g != f ==> (Introduced(s', g) <==> Introduced(s, g))
  {
    DumpedWord(e.node, Tab(s, e.node), [Hello], out, r);
    assert LastWord([Hello], r).None? by {
      assert [Hello][..0] == [];
    }
    LastWordTail(Inbox(s, e), r);
    assert GoodEnd(nodes, e);
  }

  lemma GreetBackWords(nodes: set<NodeId>, s: Net, e: End, f: End, out: seq<Announcement>, s': Net, u: NodeId,
                       n: NodeId,
                       r: NodeId)
    requires LoopFree(nodes, s) && GreetBackStep(s, e, f, out, s')
    ensures WordsKept(s, s', u, n, r)
  {
    forall g | Joins(g, u, n)
      ensures WordKept(s, s', g, r) && (Readable(s', g) <==> Readable(s, g) || g == f || g == Other(f))
      ensures Other(g) != e && Other(g) != f ==> (Introduced(s', Other(g)) <==> Introduced(s, Other(g)))
    {
      GreetedBackInbox(nodes, s, e, f, out, s', g, r);
      GreetedBackInbox(nodes, s, e, f, out, s', Other(g), r);
    }
    GreetedBackInbox(nodes, s, e, f, out, s', Other(f), r);
  }

  // The pairs of which the reading node is not the reader of this connection.
  lemma DeliverWords(nodes: set<NodeId>, s: Net, e: End, changed: bool, s': Net, u: NodeId, n: NodeId, r: NodeId)
    requires LoopFree(nodes, s) && DeliverStep(s, e, changed, s') && !Joins(e, u, n)
    ensures WordsKept(s, s', u, n, r)
  {
    assert GoodEnd(nodes, e);
    if u == e.node {
      ReactionAnnouncesChanges(nodes, s, e, changed, s');
      var out := Reaction(u, Tab(s', u), Inbox(s, e)[0].a.recipient, changed);
      forall f | Joins(f, u, n) && WrittenBy(s, u, f)
        ensures LastWord(Inbox(s', f), r) == Some(Payload(u, Tab(s', u), r))
                || (LastWord(Inbox(s', f), r) == LastWord(Inbox(s, f), r)
                    && Payload(u, Tab(s', u), r) == Payload(u, Tab(s, u), r))
      {
        AnnouncedWord(u, Tab(s, u), Tab(s', u), Inbox(s, f), out, r);
      }
    }
  }

  lemma CloseWords(nodes: set<NodeId>, s: Net, e: End, out: seq<Announcement>, s': Net, u: NodeId, n: NodeId, r: NodeId)
    requires LoopFree(nodes, s) && CloseStep(s, e, out, s')
    ensures WordsKept(s, s', u, n, r)
  {
    assert GoodEnd(nodes, e);
    if u == e.node {
      assert AnnouncesChanges(u, Tab(s, u), Tab(s', u), out);
      forall f | Joins(f, u, n) && WrittenBy(s', u, f)
        ensures LastWord(Inbox(s', f), r) == Some(Payload(u, Tab(s', u), r))
                || (LastWord(Inbox(s', f), r) == LastWord(Inbox(s, f), r)
                    && Payload(u, Tab(s', u), r) == Payload(u, Tab(s, u), r))
      {
        AnnouncedWord(u, Tab(s, u), Tab(s', u), Inbox(s, f), out, r);
      }
    }
  }

  lemma DropWords(nodes: set<NodeId>, s: Net, step: Step, s': Net, u: NodeId, n: NodeId, r: NodeId)
    requires LoopFree(nodes, s) && Next(nodes, s, step, s') && (step.Drop? || step.Leave?)
    ensures WordsKept(s, s', u, n, r)
  {
  }

  // Reading takes the first word away, and if it is the last one `n` holds it.
  lemma ReadInStep(nodes: set<NodeId>, s: Net, e: End, changed: bool, s': Net, r: NodeId)
    requires LoopFree(nodes, s) && DeliverStep(s, e, changed, s') && InStep(s, e.peer, e.node, r) && r != e.node
    ensures InStep(s', e.peer, e.node, r)
  {
    var u, n := e.peer, e.node;
    assert GoodEnd(nodes, e);
    DeliveredEntry(nodes, s, e, changed, s', r, u);
    LastWordTail(Inbox(s, e), r);
    assert SaysDue(s, e, r);
    forall f | Joins(f, u, n) ensures SaysDue(s', f, r) && (f != e ==> Mentions(s', f, r) == Mentions(s, f, r)) {
      assert SaysDue(s, f, r);
    }
    assert Dumped(s', u, n) ==> Dumped(s, u, n);
    if Unmentioned(s', u, n, r) {
      assert !Mentions(s', e, r);
      if Inbox(s, e)[0].a.recipient == r {
        assert Entry(Tab(s', n), r, u) == Due(s', u, n, r);
      } else {
        assert Unmentioned(s, u, n, r);
        assert EntryDue(s, u, n, r);
      }
    }
  }

  // The pairs whose connection was read.
  lemma StillLinked(nodes: set<NodeId>, s: Net, e: End, changed: bool, s': Net)
    requires LoopFree(nodes, s) && DeliverStep(s, e, changed, s') && Linked(s', e.peer, e.node)
    ensures Linked(s, e.peer, e.node)
  {
    assert GoodEnd(nodes, e);
    var f :| Joins(f, e.peer, e.node) && Readable(s', f) && Attended(s', f);
    assert Readable(s, f) && Attended(s, f);
  }

  lemma NextWords(nodes: set<NodeId>, s: Net, step: Step, s': Net, u: NodeId, n: NodeId, r: NodeId)
    requires LoopFree(nodes, s) && Next(nodes, s, step, s') && !(step.Deliver? && Joins(step.e, u, n))
    ensures WordsKept(s, s', u, n, r)
  {
    match step {
      case Connect(e, out) => ConnectWords(nodes, s, e, out, s', u, n, r);
      case Accept(e) => AcceptWords(s, e, s', u, n, r);
      case Greet(e, out) => GreetWords(nodes, s, e, out, s', u, n, r);
      case GreetBack(e, f, out) => GreetBackWords(nodes, s, e, f, out, s', u, n, r);
      case Deliver(e, changed) => DeliverWords(nodes, s, e, changed, s', u, n, r);
      case Close(e, out) => CloseWords(nodes, s, e, out, s', u, n, r);
      case _ => DropWords(nodes, s, step, s', u, n, r);
    }
  }

  lemma InStepIsOrderly(s: Net, s': Net, u: NodeId, n: NodeId, r: NodeId)
    requires InStep(s', u, n, r)
    ensures OrderlyFor(s, s', u, n, r)
  {
  }

  // Whatever the step, two nodes stay in step exactly when it is orderly for them.
  lemma InStepExactlyWhen(nodes: set<NodeId>, s: Net, step: Step, s': Net, u: NodeId, n: NodeId, r: NodeId)
    requires LoopFree(nodes, s) && Synchronized(s) && Next(nodes, s, step, s') && r != n && Linked(s', u, n)
    ensures InStep(s', u, n, r) <==> OrderlyFor(s, s', u, n, r)
  {
    if step.Deliver? && Joins(step.e, u, n) {
      StillLinked(nodes, s, step.e, step.changed, s');
      ReadInStep(nodes, s, step.e, step.changed, s', r);
    } else if OrderlyFor(s, s', u, n, r) {
      NextWords(nodes, s, step, s', u, n, r);
      KeepsInStep(s, s', u, n, r);
    }
    if InStep(s', u, n, r) {
      InStepIsOrderly(s, s', u, n, r);
    }
  }

  lemma SynchronizedExactlyWhen(nodes: set<NodeId>, s: Net, step: Step, s': Net)
    requires LoopFree(nodes, s) && Synchronized(s) && Next(nodes, s, step, s')
    ensures Synchronized(s') <==> Orderly(s, s')
  {
    forall u, n, r | r != n && Linked(s', u, n) ensures InStep(s', u, n, r) <==> OrderlyFor(s, s', u, n, r) {
      InStepExactlyWhen(nodes, s, step, s', u, n, r);
    }
  }

  ghost predicate OrderlyAt(states: seq<Net>, i: nat)
    requires i + 1 < |states|
  {
    Orderly(states[i], states[i + 1])
  }

  ghost predicate SynchronizedAt(states: seq<Net>, i: nat)
    requires i < |states|
  {
    Synchronized(states[i])
  }

  lemma OrderlyStep(nodes: set<NodeId>, states: seq<Net>, steps: seq<Step>, i: nat)
    requires Steps(nodes, states, steps) && i < |steps| && LoopFree(nodes, states[i]) && SynchronizedAt(states, i)
    ensures SynchronizedAt(states, i + 1) <==> OrderlyAt(states, i)
  {
    assert StepAt(nodes, states, steps, i);
    SynchronizedExactlyWhen(nodes, states[i], steps[i], states[i + 1]);
  }

  // Orderly steps keep the network synchronised.
  lemma {:induction false} StepsKeep(nodes: set<NodeId>, states: seq<Net>, steps: seq<Step>, i: nat)
    requires Steps(nodes, states, steps) && LoopFree(nodes, states[0]) && SynchronizedAt(states, 0) && i < |states|
    requires forall k :: 0 <= k < i ==> OrderlyAt(states, k)
    ensures LoopFree(nodes, states[i]) && SynchronizedAt(states, i)
  {
    if i > 0 {
      StepsKeep(nodes, states, steps, i - 1);
      StepKeeps(nodes, states, steps, i - 1);
      OrderlyStep(nodes, states, steps, i - 1);
    }
  }

  // A run is synchronised throughout exactly when all its steps are orderly.
  lemma RunIsSynchronizedExactlyWhen(nodes: set<NodeId>, states: seq<Net>, steps: seq<Step>)
    requires Run(nodes, states, steps)
    ensures (forall i :: 0 <= i < |states| ==> SynchronizedAt(states, i)) <==>
            forall i :: 0 <= i < |steps| ==> OrderlyAt(states, i)
  {
    InitIsLoopFree(nodes, states[0]);
    if forall i :: 0 <= i < |steps| ==> OrderlyAt(states, i) {
      forall i | 0 <= i < |states| ensures SynchronizedAt(states, i) {
        StepsKeep(nodes, states, steps, i);
      }
    }
    if forall i :: 0 <= i < |states| ==> SynchronizedAt(states, i) {
      forall i | 0 <= i < |steps| ensures OrderlyAt(states, i) {
        RunIsLoopFree(nodes, states, steps, i);
        assert SynchronizedAt(states, i) && SynchronizedAt(states, i + 1);
        OrderlyStep(nodes, states, steps, i);
      }
    }
  }

  // The table of `e.node` does not change because another connection to the same node is known or `e` was not
  // introduced, or because the column is not removed at all.
  ghost predicate ClosesOneOfSeveral(nodes: set<NodeId>, s: Net, step: Step, e: End, s': Net) {
    && Next(nodes, s, step, s')
    && (step == Drop(e) || (step.Close? && step.e == e && (KnownOtherwise(s, e) || !Introduced(s, e))))
  }

  lemma OthersStay(nodes: set<NodeId>, s: Net, step: Step, e: End, s': Net, f: End)
    requires GoodEnd(nodes, e) && ClosesOneOfSeveral(nodes, s, step, e, s') && f != e && SameNodes(f, e)
    ensures Tab(s', e.node) == Tab(s, e.node) && Tab(s', e.peer) == Tab(s, e.peer) && !Readable(s', e)
    ensures Inbox(s', f) == Inbox(s, f) && (Readable(s', f) <==> Readable(s, f))
    ensures Introduced(s', Other(f)) <==> Introduced(s, Other(f))
  {
    if step.Close? {
      assert step.out == [] && Wrap(step.out) == [] && Inbox(s, Other(f)) + [] == Inbox(s, Other(f));
    }
  }

  ghost predicate SameBut(s: Net, s': Net, e: End) {
    && Tab(s', e.node) == Tab(s, e.node) && Tab(s', e.peer) == Tab(s, e.peer) && !Readable(s', e)
    && forall f :: SameNodes(f, e) && f != e ==> Inbox(s', f) == Inbox(s, f) && (Readable(s', f) <==> Readable(s, f))
  }

  lemma RestInStep(s: Net, e: End, s': Net, r: NodeId)
    requires InStep(s, e.peer, e.node, r) && SameBut(s, s', e) && Dumped(s, e.peer, e.node)
             && Dumped(s', e.peer, e.node)
    ensures InStep(s', e.peer, e.node, r) <==>
            (Mentions(s, e, r) ==>
              || (exists f :: f != e && SameNodes(f, e) && Mentions(s, f, r))
              || Entry(Tab(s, e.node), r, e.peer) == Due(s, e.peer, e.node, r))
  {
    forall f | Joins(f, e.peer, e.node) && f != e
      ensures Mentions(s', f, r) == Mentions(s, f, r) && SaysDue(s', f, r)
    {
      assert SaysDue(s, f, r);
    }
  }

  // Closing one of several connections to a node keeps in step with it exactly when everything the node has said on
  // that connection and that was not read is mentioned on another one or known already.
  lemma ClosingOneOfSeveralExactlyWhen(nodes: set<NodeId>, s: Net, step: Step, e: End, s': Net, g: End, r: NodeId)
    requires LoopFree(nodes, s) && Synchronized(s) && ClosesOneOfSeveral(nodes, s, step, e, s') && r != e.node
    requires g != e && SameNodes(g, e) && Readable(s, g) && Introduced(s, Other(g))
    ensures InStep(s', e.peer, e.node, r) <==>
            (Mentions(s, e, r) ==>
              || (exists f :: f != e && SameNodes(f, e) && Mentions(s, f, r))
              || Entry(Tab(s, e.node), r, e.peer) == Due(s, e.peer, e.node, r))
  {
    var u, n := e.peer, e.node;
    assert Joins(g, u, n) && Attended(s, g) && InStep(s, u, n, r);
    forall f | SameNodes(f, e) && f != e
      ensures Inbox(s', f) == Inbox(s, f) && (Readable(s', f) <==> Readable(s, f))
    {
      OthersStay(nodes, s, step, e, s', f);
    }
    OthersStay(nodes, s, step, e, s', g);
    assert Dumped(s, u, n) && Dumped(s', u, n);
    RestInStep(s, e, s', r);
  }
}
