/** A node joins a settled ring: whatever order the messages are read in, the ring settles again with the node in it.

    The ring is listed starting from the node the newcomer connects to, so the newcomer ends up last. */
module RingJoin {
  import opened Nodes
  import opened Wrappers
  import opened Ring
  import opened RingLaws

  // What has happened so far: the target accepted (`accepted`) and read ENTRY (`entered`); the newcomer read SUCC
  // (`toldSucc`); the predecessor read ENTRY (`handedOver`); its own predecessor read SUCC (`relayed`); the newcomer
  // accepted the predecessor (`met`) and read PRED (`toldPred`); the predecessor read SUCC (`answered`).
  datatype Progress = Progress(accepted: bool, entered: bool, toldSucc: bool, handedOver: bool, relayed: bool,
                               met: bool, toldPred: bool, answered: bool)

  const BEGUN := Progress(false, false, false, false, false, false, false, false)
  const DONE := Progress(true, true, true, true, true, true, true, true)

  ghost predicate Possible(n: nat, f: Progress) {
    && (f.entered ==> f.accepted) && (f.toldSucc ==> f.entered) && (f.handedOver ==> f.entered)
    && (f.relayed ==> f.handedOver) && (f.met ==> f.handedOver) && (f.toldPred ==> f.met) && (f.answered ==> f.toldPred)
    // A node alone in its ring is its own predecessor.
    && (n == 1 ==> f.handedOver == f.entered && f.relayed == f.entered)
  }

  function Count(n: nat, f: Progress): nat {
    Bit(f.accepted) + Bit(f.entered) + Bit(f.toldSucc) + Bit(f.met) + Bit(f.toldPred) + Bit(f.answered)
    + if n == 1 then 0 else Bit(f.handedOver) + Bit(f.relayed)
  }

  // The newcomer's connection to the target, and that of its predecessor to be to the newcomer.
  function Joining(ring: seq<NodeId>, x: NodeId): Conn
    requires ring != []
  {
    Conn(x, ring[0])
  }

  function Following(ring: seq<NodeId>, x: NodeId): Conn
    requires ring != []
  {
    Conn(ring[|ring| - 1], x)
  }

  ghost predicate JoinMember(ring: seq<NodeId>, x: NodeId, f: Progress, i: nat, p: Peer)
    requires i < |ring|
  {
    var n := |ring|;
    && p.id == ring[i] && p.state == CONNECTED && !p.timer
    && p.succ == (if i == n - 1 && f.handedOver then x else ring[Up(n, i)])
    && p.secondSucc == (if i == n - 1 && f.handedOver then ring[0]
                        else if i + 2 == n && f.relayed then x
                        else ring[Up(n, Up(n, i))])
    && p.predConn == (if i == 0 && f.entered then Some(Joining(ring, x))
                      else if n == 1 then None else Some(Link(ring, Down(n, i))))
    && p.succConn == (if i == n - 1 && f.handedOver then Some(Following(ring, x))
                      else if n == 1 then None else Some(Link(ring, i)))
    && p.newNodeConn == (if i == 0 && f.accepted && !f.entered then Some(Joining(ring, x)) else None)
  }

  function SecondOf(ring: seq<NodeId>, x: NodeId): NodeId
    requires ring != []
  {
    if |ring| == 1 then x else ring[1]
  }

  ghost predicate Newcomer(ring: seq<NodeId>, x: NodeId, f: Progress, joins: nat, p: Peer)
    requires ring != []
  {
    && p.id == x && p.succ == ring[0] && p.succConn == Some(Joining(ring, x))
    && p.state == (if f.toldSucc && f.toldPred then CONNECTED else CONNECTING)
    && p.awaitingSucc == !f.toldSucc && p.awaitingPred == !f.toldPred && p.timer == !f.toldPred
    && p.joinEnds == joins + Bit(f.toldSucc && f.toldPred)
    && (f.toldSucc ==> p.secondSucc == SecondOf(ring, x))
    && p.predConn == (if f.toldPred then Some(Following(ring, x)) else None)
    && p.newNodeConn == (if f.met && !f.toldPred then Some(Following(ring, x)) else None)
  }

  ghost predicate JoinQueues(s: System, ring: seq<NodeId>, x: NodeId, f: Progress)
    requires ring != []
  {
    var n := |ring|;
    && Chan(s, Joining(ring, x), true) == (if f.entered then [] else [Entry(x)])
    && Chan(s, Joining(ring, x), false) == (if f.entered && !f.toldSucc then [Succ(SecondOf(ring, x))] else [])
    && (f.handedOver ==>
          && Chan(s, Following(ring, x), true) == (if f.toldPred then [] else [Pred(ring[n - 1])])
          && Chan(s, Following(ring, x), false) == (if f.toldPred && !f.answered then [Succ(ring[0])] else []))
    && (n > 1 ==>
          && (!f.handedOver ==> Chan(s, Link(ring, n - 1), false) == if f.entered then [Entry(x), EndOfFile] else [])
          && (!f.entered ==> Chan(s, Link(ring, n - 1), true) == []))
  }

  // The queues between the `i`th member and the next.
  ghost predicate LinkQueues(s: System, ring: seq<NodeId>, x: NodeId, f: Progress, i: nat)
    requires i < |ring|
  {
    var n := |ring|;
    i < n - 1 ==>
      && Chan(s, Link(ring, i), true) == []
      && Chan(s, Link(ring, i), false) == if i == n - 2 && f.handedOver && !f.relayed then [Succ(x)] else []
  }

  ghost predicate JoinAt(s: System, ring: seq<NodeId>, x: NodeId, f: Progress, i: nat)
    requires i < |ring|
  {
    JoinMember(ring, x, f, i, PeerOf(s, ring[i])) && LinkQueues(s, ring, x, f, i)
  }

  ghost predicate JoinInv(s: System, ring: seq<NodeId>, x: NodeId, joins: nat, f: Progress) {
    && ring != [] && NoDup(ring) && x !in ring && Possible(|ring|, f)
    && (forall i :: 0 <= i < |ring| ==> JoinAt(s, ring, x, f, i))
    && Newcomer(ring, x, f, joins, PeerOf(s, x))
    && (forall y :: y !in ring && y != x ==> forall c :: !HasRole(PeerOf(s, y), c))
    && s.waiting == (if f.accepted then {} else {Joining(ring, x)})
                    + (if f.handedOver && !f.met then {Following(ring, x)} else {})
    && JoinQueues(s, ring, x, f)
  }

  // `x`, outside the ring, runs join_ring with the first member as its successor.
  ghost predicate StartsJoining(s: System, ring: seq<NodeId>, x: NodeId, s': System)
    requires ring != []
  {
    var o := JoinRing(PeerOf(s, x).(id := x), ring[0]);
    && (forall y :: PeerOf(s', y) == if y == x then o.peer else PeerOf(s, y))
    && (forall c, t :: Chan(s', c, t) == After(Chan(s, c, t), x, o.effects, c, t))
    && s'.waiting == s.waiting + o.effects.dialed
  }

  lemma MemberAtFirst(s: System, ring: seq<NodeId>, x: NodeId, i: nat, s': System)
    requires i < |ring| && SettledAt(s, ring, i) && NoDup(ring) && x !in ring && StartsJoining(s, ring, x, s')
    ensures JoinAt(s', ring, x, BEGUN, i)
    ensures |ring| > 1 ==> Chan(s', Link(ring, i), true) == [] && Chan(s', Link(ring, i), false) == []
  {
  }

  lemma JoinBegins(s: System, ring: seq<NodeId>, x: NodeId, s': System)
    requires Settled(s, ring) && x !in ring && StartsJoining(s, ring, x, s')
    ensures JoinInv(s', ring, x, PeerOf(s, x).joinEnds, BEGUN)
  {
    forall i | 0 <= i < |ring|
      ensures JoinAt(s', ring, x, BEGUN, i)
      ensures |ring| > 1 ==> Chan(s', Link(ring, i), true) == [] && Chan(s', Link(ring, i), false) == []
    {
      assert SettledAt(s, ring, i);
      MemberAtFirst(s, ring, x, i, s');
    }
    assert JoinAt(s', ring, x, BEGUN, |ring| - 1);
  }

  lemma MemberAtLast(s: System, ring: seq<NodeId>, x: NodeId, i: nat)
    requires i < |ring| && JoinAt(s, ring, x, DONE, i) && JoinQueues(s, ring, x, DONE)
    ensures SettledAt(s, ring + [x], i)
  {
  }

  lemma JoinEnds(s: System, ring: seq<NodeId>, x: NodeId, joins: nat)
    requires JoinInv(s, ring, x, joins, DONE)
    ensures Settled(s, ring + [x]) && PeerOf(s, x).joinEnds == joins + 1
  {
    var full := ring + [x];
    forall i | 0 <= i < |full| ensures SettledAt(s, full, i) {
      if i < |ring| {
        assert JoinAt(s, ring, x, DONE, i);
        MemberAtLast(s, ring, x, i);
      }
    }
    assert NoDup(full);
  }

  // The target accepts the newcomer's connection.
  lemma TargetAccepts(s: System, ring: seq<NodeId>, x: NodeId, joins: nat, f: Progress, s': System)
    requires JoinInv(s, ring, x, joins, f) && !f.accepted
    requires Next(s, Accept(Joining(ring, x)), s')
    ensures JoinInv(s', ring, x, joins, f.(accepted := true))
  {
    assert JoinAt(s, ring, x, f, 0);
    PlainAccept(s, Joining(ring, x), s');
    TargetAcceptsKeeps(s, ring, x, joins, f, s');
  }

  lemma TargetAcceptsKeeps(s: System, ring: seq<NodeId>, x: NodeId, joins: nat, f: Progress, s': System)
    requires JoinInv(s, ring, x, joins, f) && !f.accepted
    requires Admits(s, Joining(ring, x), s')
    ensures JoinInv(s', ring, x, joins, f.(accepted := true))
  {
    assert JoinAt(s, ring, x, f, 0);
    forall i | 0 <= i < |ring| ensures JoinAt(s', ring, x, f.(accepted := true), i) {
      assert JoinAt(s, ring, x, f, i);
    }
  }

  // The newcomer accepts its predecessor's connection.
  lemma NewcomerAccepts(s: System, ring: seq<NodeId>, x: NodeId, joins: nat, f: Progress, s': System)
    requires JoinInv(s, ring, x, joins, f) && f.handedOver && !f.met
    requires Next(s, Accept(Following(ring, x)), s')
    ensures JoinInv(s', ring, x, joins, f.(met := true))
  {
    PlainAccept(s, Following(ring, x), s');
    NewcomerAcceptsKeeps(s, ring, x, joins, f, s');
  }

  lemma NewcomerAcceptsKeeps(s: System, ring: seq<NodeId>, x: NodeId, joins: nat, f: Progress, s': System)
    requires JoinInv(s, ring, x, joins, f) && f.handedOver && !f.met
    requires Admits(s, Following(ring, x), s')
    ensures JoinInv(s', ring, x, joins, f.(met := true))
  {
    forall i | 0 <= i < |ring| ensures JoinAt(s', ring, x, f.(met := true), i) {
      assert JoinAt(s, ring, x, f, i);
    }
  }

  // The target, not alone, reads ENTRY from the newcomer.
  lemma TargetReadsEntry(s: System, ring: seq<NodeId>, x: NodeId, joins: nat, f: Progress, s': System)
    requires JoinInv(s, ring, x, joins, f) && f.accepted && !f.entered && |ring| > 1
    requires Next(s, Read(Joining(ring, x), true), s')
    ensures JoinInv(s', ring, x, joins, f.(entered := true))
  {
    assert JoinAt(s, ring, x, f, 0);
    assert JoinAt(s, ring, x, f, |ring| - 1);
    var p := PeerOf(s, ring[0]).(predConn := Some(Joining(ring, x)), newNodeConn := None);
    var e := Effects({}, map[Joining(ring, x) := Succ(SecondOf(ring, x)), Link(ring, |ring| - 1) := Entry(x)],
                     {Link(ring, |ring| - 1)});
    BusyRead(s, Joining(ring, x), true, s', p, e);
    TargetReadsEntryKeeps(s, ring, x, joins, f, p, e, s');
  }

  lemma TargetReadsEntryKeeps(s: System, ring: seq<NodeId>, x: NodeId, joins: nat, f: Progress, p: Peer, e: Effects,
                              s': System)
    requires JoinInv(s, ring, x, joins, f) && f.accepted && !f.entered && |ring| > 1
    requires Acts(s, Joining(ring, x), true, p, e, s')
    requires JoinMember(ring, x, f.(entered := true), 0, p)
    requires e == Effects({}, map[Joining(ring, x) := Succ(SecondOf(ring, x)), Link(ring, |ring| - 1) := Entry(x)],
                          {Link(ring, |ring| - 1)})
    ensures JoinInv(s', ring, x, joins, f.(entered := true))
  {
    assert JoinAt(s, ring, x, f, 0);
    assert JoinAt(s, ring, x, f, |ring| - 1);
    forall i | 0 <= i < |ring| ensures JoinAt(s', ring, x, f.(entered := true), i) {
      assert JoinAt(s, ring, x, f, i);
    }
  }

  // The target, alone in its ring, reads ENTRY from the newcomer.
  lemma LoneTargetReadsEntry(s: System, ring: seq<NodeId>, x: NodeId, joins: nat, f: Progress, s': System)
    requires JoinInv(s, ring, x, joins, f) && f.accepted && !f.entered && |ring| == 1
    requires Next(s, Read(Joining(ring, x), true), s')
    ensures JoinInv(s', ring, x, joins, f.(entered := true, handedOver := true, relayed := true))
  {
    assert JoinAt(s, ring, x, f, 0);
    assert JoinAt(s', ring, x, f.(entered := true, handedOver := true, relayed := true), 0);
  }

  // The newcomer reads SUCC from the target.
  lemma NewcomerReadsSucc(s: System, ring: seq<NodeId>, x: NodeId, joins: nat, f: Progress, s': System)
    requires JoinInv(s, ring, x, joins, f) && f.entered && !f.toldSucc
    requires Next(s, Read(Joining(ring, x), false), s')
    ensures JoinInv(s', ring, x, joins, f.(toldSucc := true))
  {
    var told := PeerOf(s, x).(secondSucc := SecondOf(ring, x), awaitingSucc := false);
    var p := if f.toldPred then OnJoinEnd(told) else told;
    QuietRead(s, Joining(ring, x), false, s', p);
    NewcomerReadsSuccKeeps(s, ring, x, joins, f, p, s');
  }

  lemma NewcomerReadsSuccKeeps(s: System, ring: seq<NodeId>, x: NodeId, joins: nat, f: Progress, p: Peer, s': System)
    requires JoinInv(s, ring, x, joins, f) && f.entered && !f.toldSucc
    requires Becomes(s, Joining(ring, x), false, p, s')
    requires Newcomer(ring, x, f.(toldSucc := true), joins, p)
    ensures JoinInv(s', ring, x, joins, f.(toldSucc := true))
  {
    forall i | 0 <= i < |ring| ensures JoinAt(s', ring, x, f.(toldSucc := true), i) {
      assert JoinAt(s, ring, x, f, i);
    }
  }

  // The predecessor reads ENTRY from the target.
  lemma PredecessorReadsEntry(s: System, ring: seq<NodeId>, x: NodeId, joins: nat, f: Progress, s': System)
    requires JoinInv(s, ring, x, joins, f) && f.entered && !f.handedOver
    requires Next(s, Read(Link(ring, |ring| - 1), false), s')
    ensures JoinInv(s', ring, x, joins, f.(handedOver := true))
  {
    assert JoinAt(s, ring, x, f, 0);
    assert JoinAt(s, ring, x, f, |ring| - 1);
    var p := PeerOf(s, ring[|ring| - 1]).(secondSucc := ring[0], succ := x, succConn := Some(Following(ring, x)));
    var e := Effects({Following(ring, x)},
                     map[Link(ring, |ring| - 2) := Succ(x), Following(ring, x) := Pred(ring[|ring| - 1])],
                     {Link(ring, |ring| - 1)});
    BusyRead(s, Link(ring, |ring| - 1), false, s', p, e);
    PredecessorReadsEntryKeeps(s, ring, x, joins, f, p, e, s');
  }

  lemma PredecessorReadsEntryKeeps(s: System, ring: seq<NodeId>, x: NodeId, joins: nat, f: Progress, p: Peer,
                                   e: Effects, s': System)
    requires JoinInv(s, ring, x, joins, f) && f.entered && !f.handedOver
    requires Acts(s, Link(ring, |ring| - 1), false, p, e, s')
    requires |ring| > 1 && JoinMember(ring, x, f.(handedOver := true), |ring| - 1, p)
    requires e == Effects({Following(ring, x)},
                          map[Link(ring, |ring| - 2) := Succ(x), Following(ring, x) := Pred(ring[|ring| - 1])],
                          {Link(ring, |ring| - 1)})
    ensures JoinInv(s', ring, x, joins, f.(handedOver := true))
  {
    assert Newcomer(ring, x, f, joins, PeerOf(s', x));
    forall i | 0 <= i < |ring| ensures JoinAt(s', ring, x, f.(handedOver := true), i) {
      assert JoinAt(s, ring, x, f, i);
      HandedOverMember(s, ring, x, f, p, e, s', i);
    }
  }

  lemma HandedOverMember(s: System, ring: seq<NodeId>, x: NodeId, f: Progress, p: Peer, e: Effects, s': System, i: nat)
    requires i < |ring| && NoDup(ring) && x !in ring && Possible(|ring|, f) && f.entered && !f.handedOver
    requires JoinAt(s, ring, x, f, i)
    requires Acts(s, Link(ring, |ring| - 1), false, p, e, s')
    requires |ring| > 1 && JoinMember(ring, x, f.(handedOver := true), |ring| - 1, p)
    requires e == Effects({Following(ring, x)},
                          map[Link(ring, |ring| - 2) := Succ(x), Following(ring, x) := Pred(ring[|ring| - 1])],
                          {Link(ring, |ring| - 1)})
    ensures JoinAt(s', ring, x, f.(handedOver := true), i)
  {
  }

  // The predecessor of the predecessor reads SUCC.
  lemma SecondPredecessorReadsSucc(s: System, ring: seq<NodeId>, x: NodeId, joins: nat, f: Progress, s': System)
    requires JoinInv(s, ring, x, joins, f) && f.handedOver && !f.relayed && |ring| > 1
    requires Next(s, Read(Link(ring, |ring| - 2), false), s')
    ensures JoinInv(s', ring, x, joins, f.(relayed := true))
  {
    assert JoinAt(s, ring, x, f, |ring| - 2);
    var p := PeerOf(s, ring[|ring| - 2]).(secondSucc := x, awaitingSucc := false);
    QuietRead(s, Link(ring, |ring| - 2), false, s', p);
    SecondPredecessorReadsSuccKeeps(s, ring, x, joins, f, p, s');
  }

  lemma SecondPredecessorReadsSuccKeeps(s: System, ring: seq<NodeId>, x: NodeId, joins: nat, f: Progress, p: Peer,
                                        s': System)
    requires JoinInv(s, ring, x, joins, f) && f.handedOver && !f.relayed && |ring| > 1
    requires Becomes(s, Link(ring, |ring| - 2), false, p, s')
    requires JoinMember(ring, x, f.(relayed := true), |ring| - 2, p)
    ensures JoinInv(s', ring, x, joins, f.(relayed := true))
  {
    assert JoinAt(s, ring, x, f, |ring| - 2);
    forall i | 0 <= i < |ring| ensures JoinAt(s', ring, x, f.(relayed := true), i) {
      assert JoinAt(s, ring, x, f, i);
    }
  }

  // The newcomer reads PRED from its predecessor.
  lemma NewcomerReadsPred(s: System, ring: seq<NodeId>, x: NodeId, joins: nat, f: Progress, s': System)
    requires JoinInv(s, ring, x, joins, f) && f.met && !f.toldPred
    requires Next(s, Read(Following(ring, x), true), s')
    ensures JoinInv(s', ring, x, joins, f.(toldPred := true))
  {
    var told := PeerOf(s, x).(predConn := Some(Following(ring, x)), newNodeConn := None, timer := false,
                              awaitingPred := false);
    var p := if f.toldSucc then OnJoinEnd(told) else told;
    var e := Effects({}, map[Following(ring, x) := Succ(ring[0])], {});
    BusyRead(s, Following(ring, x), true, s', p, e);
    NewcomerReadsPredKeeps(s, ring, x, joins, f, p, e, s');
  }

  lemma NewcomerReadsPredKeeps(s: System, ring: seq<NodeId>, x: NodeId, joins: nat, f: Progress, p: Peer, e: Effects,
                               s': System)
    requires JoinInv(s, ring, x, joins, f) && f.met && !f.toldPred
    requires Acts(s, Following(ring, x), true, p, e, s')
    requires Newcomer(ring, x, f.(toldPred := true), joins, p)
    requires e == Effects({}, map[Following(ring, x) := Succ(ring[0])], {})
    ensures JoinInv(s', ring, x, joins, f.(toldPred := true))
  {
    forall i | 0 <= i < |ring| ensures JoinAt(s', ring, x, f.(toldPred := true), i) {
      assert JoinAt(s, ring, x, f, i);
    }
  }

  // The predecessor reads SUCC from the newcomer.
  lemma PredecessorReadsSucc(s: System, ring: seq<NodeId>, x: NodeId, joins: nat, f: Progress, s': System)
    requires JoinInv(s, ring, x, joins, f) && f.toldPred && !f.answered
    requires Next(s, Read(Following(ring, x), false), s')
    ensures JoinInv(s', ring, x, joins, f.(answered := true))
  {
    assert JoinAt(s, ring, x, f, |ring| - 1);
    var p := PeerOf(s, ring[|ring| - 1]).(secondSucc := ring[0], awaitingSucc := false);
    QuietRead(s, Following(ring, x), false, s', p);
    PredecessorReadsSuccKeeps(s, ring, x, joins, f, p, s');
  }

  lemma PredecessorReadsSuccKeeps(s: System, ring: seq<NodeId>, x: NodeId, joins: nat, f: Progress, p: Peer, s': System)
    requires JoinInv(s, ring, x, joins, f) && f.toldPred && !f.answered
    requires Becomes(s, Following(ring, x), false, p, s')
    requires JoinMember(ring, x, f.(answered := true), |ring| - 1, p)
    ensures JoinInv(s', ring, x, joins, f.(answered := true))
  {
    assert JoinAt(s, ring, x, f, |ring| - 1);
    forall i | 0 <= i < |ring| ensures JoinAt(s', ring, x, f.(answered := true), i) {
      assert JoinAt(s, ring, x, f, i);
    }
  }

  // What the newcomer can read.
  lemma NewcomerReads(s: System, ring: seq<NodeId>, x: NodeId, joins: nat, f: Progress, c: Conn, t: bool)
    requires JoinInv(s, ring, x, joins, f) && Enabled(s, Read(c, t)) && Reader(c, t) == x
    ensures (c == Joining(ring, x) && !t && f.entered && !f.toldSucc)
            || (c == Following(ring, x) && t && f.met && !f.toldPred)
  {
  }

  // What a member of the ring can read.
  lemma MemberReads(s: System, ring: seq<NodeId>, x: NodeId, joins: nat, f: Progress, c: Conn, t: bool, i: nat)
    requires JoinInv(s, ring, x, joins, f) && Enabled(s, Read(c, t)) && i < |ring| && Reader(c, t) == ring[i]
    ensures || (c == Joining(ring, x) && t && f.accepted && !f.entered)
            || (c == Following(ring, x) && !t && f.toldPred && !f.answered)
            || (|ring| > 1 && c == Link(ring, |ring| - 1) && !t && f.entered && !f.handedOver)
            || (|ring| > 1 && c == Link(ring, |ring| - 2) && !t && f.handedOver && !f.relayed)
  {
    assert JoinAt(s, ring, x, f, i) && JoinAt(s, ring, x, f, Down(|ring|, i));
    assert Up(|ring|, Down(|ring|, i)) == i;
  }

  // Every step there can be takes the join one step further, and no node exits.
  lemma JoinStep(s: System, ring: seq<NodeId>, x: NodeId, joins: nat, f: Progress, step: Step, s': System)
    returns (f': Progress)
    requires JoinInv(s, ring, x, joins, f) && Next(s, step, s')
    ensures JoinInv(s', ring, x, joins, f') && Count(|ring|, f') == Count(|ring|, f) + 1
  {
    f' := f;
    match step {
      case Accept(c) =>
        if c == Joining(ring, x) {
          f' := f.(accepted := true);
          TargetAccepts(s, ring, x, joins, f, s');
        } else {
          f' := f.(met := true);
          NewcomerAccepts(s, ring, x, joins, f, s');
        }
      case Read(c, t) =>
        if Reader(c, t) == x {
          NewcomerReads(s, ring, x, joins, f, c, t);
          if !t {
            f' := f.(toldSucc := true);
            NewcomerReadsSucc(s, ring, x, joins, f, s');
          } else {
            f' := f.(toldPred := true);
            NewcomerReadsPred(s, ring, x, joins, f, s');
          }
        } else {
          var i :| 0 <= i < |ring| && ring[i] == Reader(c, t);
          MemberReads(s, ring, x, joins, f, c, t, i);
          f' := MemberStep(s, ring, x, joins, f, c, t, s');
        }
    }
  }

  lemma MemberStep(s: System, ring: seq<NodeId>, x: NodeId, joins: nat, f: Progress, c: Conn, t: bool, s': System)
    returns (f': Progress)
    requires JoinInv(s, ring, x, joins, f) && Next(s, Read(c, t), s')
    requires || (c == Joining(ring, x) && t && f.accepted && !f.entered)
             || (c == Following(ring, x) && !t && f.toldPred && !f.answered)
             || (|ring| > 1 && c == Link(ring, |ring| - 1) && !t && f.entered && !f.handedOver)
             || (|ring| > 1 && c == Link(ring, |ring| - 2) && !t && f.handedOver && !f.relayed)
    ensures JoinInv(s', ring, x, joins, f') && Count(|ring|, f') == Count(|ring|, f) + 1
  {
    if t && |ring| > 1 {
      f' := f.(entered := true);
      TargetReadsEntry(s, ring, x, joins, f, s');
    } else if t {
      f' := f.(entered := true, handedOver := true, relayed := true);
      LoneTargetReadsEntry(s, ring, x, joins, f, s');
    } else if c == Following(ring, x) && f.toldPred && !f.answered {
      f' := f.(answered := true);
      PredecessorReadsSucc(s, ring, x, joins, f, s');
    } else if c == Link(ring, |ring| - 1) && f.entered && !f.handedOver {
      f' := f.(handedOver := true);
      PredecessorReadsEntry(s, ring, x, joins, f, s');
    } else {
      f' := f.(relayed := true);
      SecondPredecessorReadsSucc(s, ring, x, joins, f, s');
    }
  }

  // Until the join is done some step is possible.
  lemma JoinGoesOn(s: System, ring: seq<NodeId>, x: NodeId, joins: nat, f: Progress) returns (step: Step)
    requires JoinInv(s, ring, x, joins, f) && f != DONE
    ensures Enabled(s, step)
  {
    assert JoinAt(s, ring, x, f, 0) && JoinAt(s, ring, x, f, |ring| - 1);
    if !f.accepted {
      step := Accept(Joining(ring, x));
    } else if !f.entered {
      step := Read(Joining(ring, x), true);
    } else if !f.toldSucc {
      step := Read(Joining(ring, x), false);
    } else if !f.handedOver {
      step := Read(Link(ring, |ring| - 1), false);
    } else if !f.relayed {
      assert JoinAt(s, ring, x, f, |ring| - 2);
      step := Read(Link(ring, |ring| - 2), false);
    } else if !f.met {
      step := Accept(Following(ring, x));
    } else if !f.toldPred {
      step := Read(Following(ring, x), true);
    } else {
      step := Read(Following(ring, x), false);
    }
  }

  lemma {:induction false} JoinRun(s: System, ring: seq<NodeId>, x: NodeId, states: seq<System>, steps: seq<Step>,
                                   i: nat)
    returns (f: Progress)
    requires Settled(s, ring) && x !in ring && IsRun(states, steps) && StartsJoining(s, ring, x, states[0])
             && i <= |steps|
    ensures JoinInv(states[i], ring, x, PeerOf(s, x).joinEnds, f) && Count(|ring|, f) == i
  {
    if i == 0 {
      f := BEGUN;
      JoinBegins(s, ring, x, states[0]);
    } else {
      var before := JoinRun(s, ring, x, states, steps, i - 1);
      assert StepAt(states, steps, i - 1);
      f := JoinStep(states[i - 1], ring, x, PeerOf(s, x).joinEnds, before, steps[i - 1], states[i]);
    }
  }

  // A node joins a settled ring at its first member.  However the messages are interleaved there are at most 8 steps;
  // if no further step is possible the ring has settled with the newcomer last, and on_join_end has run exactly once.
  lemma JoinSettles(s: System, ring: seq<NodeId>, x: NodeId, states: seq<System>, steps: seq<Step>)
    requires Settled(s, ring) && x !in ring && IsRun(states, steps) && StartsJoining(s, ring, x, states[0])
    ensures |steps| <= 8
    ensures (forall step :: !Enabled(states[|steps|], step)) ==>
              && Settled(states[|steps|], ring + [x])
              && PeerOf(states[|steps|], x).joinEnds == PeerOf(s, x).joinEnds + 1
  {
    var f := JoinRun(s, ring, x, states, steps, |steps|);
    if f == DONE {
      JoinEnds(states[|steps|], ring, x, PeerOf(s, x).joinEnds);
    } else {
      var step := JoinGoesOn(states[|steps|], ring, x, PeerOf(s, x).joinEnds, f);
    }
  }

  // The same for a newcomer that connects to any member.
  lemma JoinAnywhereSettles(s: System, ring: seq<NodeId>, k: nat, x: NodeId, states: seq<System>, steps: seq<Step>)
    requires Settled(s, ring) && k < |ring| && x !in ring && IsRun(states, steps)
    requires StartsJoining(s, Turn(ring, k), x, states[0])
    ensures |steps| <= 8
    ensures (forall step :: !Enabled(states[|steps|], step)) ==>
              && Settled(states[|steps|], ring[k..] + ring[..k] + [x])
              && PeerOf(states[|steps|], x).joinEnds == PeerOf(s, x).joinEnds + 1
  {
    SettledFromAnyMember(s, ring, k);
    assert x !in Turn(ring, k);
    JoinSettles(s, Turn(ring, k), x, states, steps);
  }

  // So the handlers of `RingNode` may be called at every node throughout.
  lemma RolesDifferThroughout(s: System, ring: seq<NodeId>, x: NodeId, joins: nat, f: Progress, i: nat)
    requires JoinInv(s, ring, x, joins, f) && i < |ring|
    ensures RolesDiffer(PeerOf(s, ring[i])) && RolesDiffer(PeerOf(s, x))
    ensures Consistent(PeerOf(s, ring[i])) && Consistent(PeerOf(s, x))
  {
    assert JoinAt(s, ring, x, f, i);
  }
}
