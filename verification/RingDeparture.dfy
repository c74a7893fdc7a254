/** A node of a settled ring disappears: whatever order the news is read in, the others settle in a ring without it.

    The ring is listed so that the departing node is the last; `rest` are the others. */
module RingDeparture {
  import opened Nodes
  import opened Wrappers
  import opened Ring
  import opened RingLaws

  // What has happened so far: the predecessor read the end of its connection (`noticed`); so did the successor
  // (`lost`), unless it met the predecessor first; the predecessor's own predecessor read SUCC (`relayed`); the
  // successor accepted the predecessor (`met`) and read PRED (`replaced`); the predecessor read SUCC (`answered`).
  datatype Progress = Progress(noticed: bool, lost: bool, relayed: bool, met: bool, replaced: bool, answered: bool)

  const BEGUN := Progress(false, false, false, false, false, false)

  ghost predicate Possible(n: nat, f: Progress) {
    && (f.met ==> f.noticed) && (f.replaced ==> f.met) && (f.answered ==> f.replaced) && (f.relayed ==> f.noticed)
    // A node left alone has nobody to tell.
    && (n == 1 ==> !f.met && !f.replaced && !f.answered && !f.relayed)
  }

  predicate Finished(n: nat, f: Progress) {
    f.noticed && (f.lost || f.replaced) && (n > 1 ==> f.relayed && f.met && f.replaced && f.answered)
  }

  function Count(f: Progress): nat {
    Bit(f.noticed) + Bit(f.lost) + Bit(f.relayed) + Bit(f.met) + Bit(f.replaced) + Bit(f.answered)
  }

  // The connections of the departed node, and the one that will close the gap.
  function ToDeparted(rest: seq<NodeId>, d: NodeId): Conn
    requires rest != []
  {
    Conn(rest[|rest| - 1], d)
  }

  function FromDeparted(rest: seq<NodeId>, d: NodeId): Conn
    requires rest != []
  {
    Conn(d, rest[0])
  }

  function Closing(rest: seq<NodeId>): Conn
    requires rest != []
  {
    Link(rest, |rest| - 1)
  }

  ghost predicate LeftMember(rest: seq<NodeId>, d: NodeId, f: Progress, i: nat, p: Peer)
    requires i < |rest|
  {
    var n := |rest|;
    && p.id == rest[i] && p.state == CONNECTED
    // The timeout runs while the successor of the gap awaits its new predecessor, in a ring of two only if it has not
    // been told yet that it is one.
    && (p.timer ==> i == 0 && n > 1 && f.lost && !f.replaced)
    && (i == 0 && n > 2 && f.lost && !f.replaced ==> p.timer)
    && p.succ == (if i == n - 1 && !f.noticed then d else rest[Up(n, i)])
    && p.secondSucc == (if i == n - 1 && !f.answered then rest[0]
                        else if i + 2 == n && !f.relayed then d
                        else rest[Up(n, Up(n, i))])
    && p.predConn == (if i == 0 && !f.replaced then (if f.lost then None else Some(FromDeparted(rest, d)))
                      else Some(Link(rest, Down(n, i))))
    && p.succConn == (if i == n - 1 && !f.noticed then Some(ToDeparted(rest, d))
                      else if n == 1 then None else Some(Link(rest, i)))
    && p.newNodeConn == (if i == 0 && f.met && !f.replaced then Some(Closing(rest)) else None)
  }

  ghost predicate LinkQueues(s: System, rest: seq<NodeId>, f: Progress, i: nat)
    requires i < |rest|
  {
    i < |rest| - 1 ==>
      && Chan(s, Link(rest, i), true) == []
      && Chan(s, Link(rest, i), false) == if i + 2 == |rest| && f.noticed && !f.relayed then [Succ(rest[0])] else []
  }

  ghost predicate LeftAt(s: System, rest: seq<NodeId>, d: NodeId, f: Progress, i: nat)
    requires i < |rest|
  {
    LeftMember(rest, d, f, i, PeerOf(s, rest[i])) && LinkQueues(s, rest, f, i)
  }

  ghost predicate GapQueues(s: System, rest: seq<NodeId>, d: NodeId, f: Progress)
    requires rest != []
  {
    var n := |rest|;
    && (!f.noticed ==> Chan(s, ToDeparted(rest, d), false) == [EndOfFile])
    && (!f.lost && !f.replaced ==> Chan(s, FromDeparted(rest, d), true) == [EndOfFile])
    && (f.noticed && n > 1 ==>
          && Chan(s, Closing(rest), true) == (if f.replaced then [] else [Pred(rest[n - 1])])
          && Chan(s, Closing(rest), false) == (if f.replaced && !f.answered then [Succ(rest[Up(n, 0)])] else []))
  }

  ghost predicate RepairInv(s: System, rest: seq<NodeId>, d: NodeId, f: Progress) {
    && rest != [] && NoDup(rest) && d !in rest && Possible(|rest|, f)
    && (forall i :: 0 <= i < |rest| ==> LeftAt(s, rest, d, f, i))
    && (forall y :: y !in rest ==> forall c :: !HasRole(PeerOf(s, y), c))
    && s.waiting == (if f.noticed && !f.met && |rest| > 1 then {Closing(rest)} else {})
    && GapQueues(s, rest, d, f)
  }

  // Node `d` leaves, or its program ends: all its connections are closed.
  ghost predicate Departs(s: System, d: NodeId, s': System) {
    var o := LeaveRing(PeerOf(s, d));
    && (forall y :: PeerOf(s', y) == if y == d then o.peer else PeerOf(s, y))
    && (forall c, t :: Chan(s', c, t) == After(Chan(s, c, t), d, o.effects, c, t))
    && s'.waiting == s.waiting
  }

  lemma MemberAtFirst(s: System, rest: seq<NodeId>, d: NodeId, i: nat, s': System)
    requires i < |rest| && NoDup(rest + [d]) && Departs(s, d, s')
    requires SettledAt(s, rest + [d], i) && SettledAt(s, rest + [d], |rest|)
    ensures LeftAt(s', rest, d, BEGUN, i)
  {
  }

  lemma RepairBegins(s: System, rest: seq<NodeId>, d: NodeId, s': System)
    requires Settled(s, rest + [d]) && rest != [] && Departs(s, d, s')
    ensures RepairInv(s', rest, d, BEGUN)
  {
    var ring := rest + [d];
    assert ring[|rest|] == d;
    assert SettledAt(s, ring, |rest|) && SettledAt(s, ring, |rest| - 1);
    forall i | 0 <= i < |rest| ensures LeftAt(s', rest, d, BEGUN, i) {
      assert SettledAt(s, ring, i);
      MemberAtFirst(s, rest, d, i, s');
    }
    assert forall i :: 0 <= i < |rest| ==> ring[i] == rest[i];
    assert Link(ring, |rest| - 1) == ToDeparted(rest, d) && Link(ring, |rest|) == FromDeparted(rest, d);
  }

  lemma RepairEnds(s: System, rest: seq<NodeId>, d: NodeId, f: Progress)
    requires RepairInv(s, rest, d, f) && Finished(|rest|, f)
    ensures Settled(s, rest)
  {
    forall i | 0 <= i < |rest| ensures SettledAt(s, rest, i) {
      assert LeftAt(s, rest, d, f, i);
    }
  }

  // The predecessor, not left alone, reads the end of its connection.
  lemma PredecessorNotices(s: System, rest: seq<NodeId>, d: NodeId, f: Progress, s': System)
    requires RepairInv(s, rest, d, f) && !f.noticed && |rest| > 1
    requires Next(s, Read(ToDeparted(rest, d), false), s')
    ensures RepairInv(s', rest, d, f.(noticed := true))
  {
    assert LeftAt(s, rest, d, f, |rest| - 1);
    var p := PeerOf(s, rest[|rest| - 1]).(awaitingSucc := true, succ := rest[0], succConn := Some(Closing(rest)));
    var e := Effects({Closing(rest)},
                     map[Link(rest, |rest| - 2) := Succ(rest[0]), Closing(rest) := Pred(rest[|rest| - 1])],
                     {ToDeparted(rest, d)});
    BusyRead(s, ToDeparted(rest, d), false, s', p, e);
    PredecessorNoticesKeeps(s, rest, d, f, p, e, s');
  }

  lemma PredecessorNoticesKeeps(s: System, rest: seq<NodeId>, d: NodeId, f: Progress, p: Peer, e: Effects, s': System)
    requires RepairInv(s, rest, d, f) && !f.noticed && |rest| > 1
    requires Acts(s, ToDeparted(rest, d), false, p, e, s')
    requires LeftMember(rest, d, f.(noticed := true), |rest| - 1, p)
    requires e == Effects({Closing(rest)},
                          map[Link(rest, |rest| - 2) := Succ(rest[0]), Closing(rest) := Pred(rest[|rest| - 1])],
                          {ToDeparted(rest, d)})
    ensures RepairInv(s', rest, d, f.(noticed := true))
  {
    assert LeftAt(s, rest, d, f, |rest| - 1);
    forall i | 0 <= i < |rest| ensures LeftAt(s', rest, d, f.(noticed := true), i) {
      assert LeftAt(s, rest, d, f, i);
    }
  }

  // The only other node reads the end of its connection to its successor.
  lemma LoneNodeNotices(s: System, rest: seq<NodeId>, d: NodeId, f: Progress, s': System)
    requires RepairInv(s, rest, d, f) && !f.noticed && |rest| == 1
    requires Next(s, Read(ToDeparted(rest, d), false), s')
    ensures RepairInv(s', rest, d, f.(noticed := true))
  {
    assert LeftAt(s, rest, d, f, 0);
    assert LeftAt(s', rest, d, f.(noticed := true), 0);
  }

  // The successor reads the end of its connection.
  lemma SuccessorLoses(s: System, rest: seq<NodeId>, d: NodeId, f: Progress, s': System)
    requires RepairInv(s, rest, d, f) && !f.lost && !f.replaced
    requires Next(s, Read(FromDeparted(rest, d), true), s')
    ensures RepairInv(s', rest, d, f.(lost := true))
  {
    assert LeftAt(s, rest, d, f, 0);
    var p := var q := PeerOf(s, rest[0]); q.(predConn := None, timer := q.timer || q.id != q.secondSucc);
    var e := Effects({}, map[], {FromDeparted(rest, d)});
    BusyRead(s, FromDeparted(rest, d), true, s', p, e);
    SuccessorLosesKeeps(s, rest, d, f, p, e, s');
  }

  lemma SuccessorLosesKeeps(s: System, rest: seq<NodeId>, d: NodeId, f: Progress, p: Peer, e: Effects, s': System)
    requires RepairInv(s, rest, d, f) && !f.lost && !f.replaced
    requires Acts(s, FromDeparted(rest, d), true, p, e, s')
    requires LeftMember(rest, d, f.(lost := true), 0, p)
    requires e == Effects({}, map[], {FromDeparted(rest, d)})
    ensures RepairInv(s', rest, d, f.(lost := true))
  {
    assert LeftAt(s, rest, d, f, 0);
    forall i | 0 <= i < |rest| ensures LeftAt(s', rest, d, f.(lost := true), i) {
      assert LeftAt(s, rest, d, f, i);
    }
  }

  // The successor accepts the predecessor's connection.
  lemma SuccessorAccepts(s: System, rest: seq<NodeId>, d: NodeId, f: Progress, s': System)
    requires RepairInv(s, rest, d, f) && f.noticed && !f.met && |rest| > 1
    requires Next(s, Accept(Closing(rest)), s')
    ensures RepairInv(s', rest, d, f.(met := true))
  {
    assert LeftAt(s, rest, d, f, 0);
    PlainAccept(s, Closing(rest), s');
    SuccessorAcceptsKeeps(s, rest, d, f, s');
  }

  lemma SuccessorAcceptsKeeps(s: System, rest: seq<NodeId>, d: NodeId, f: Progress, s': System)
    requires RepairInv(s, rest, d, f) && f.noticed && !f.met && |rest| > 1
    requires Admits(s, Closing(rest), s')
    ensures RepairInv(s', rest, d, f.(met := true))
  {
    assert LeftAt(s, rest, d, f, 0);
    forall i | 0 <= i < |rest| ensures LeftAt(s', rest, d, f.(met := true), i) {
      assert LeftAt(s, rest, d, f, i);
    }
  }

  // The successor reads PRED.
  lemma SuccessorReadsPred(s: System, rest: seq<NodeId>, d: NodeId, f: Progress, s': System)
    requires RepairInv(s, rest, d, f) && f.met && !f.replaced
    requires Next(s, Read(Closing(rest), true), s')
    ensures RepairInv(s', rest, d, f.(replaced := true))
  {
    assert LeftAt(s, rest, d, f, 0);
    var p := PeerOf(s, rest[0]).(predConn := Some(Closing(rest)), newNodeConn := None, timer := false,
                                 awaitingPred := false);
    var e := Effects({}, map[Closing(rest) := Succ(rest[Up(|rest|, 0)])], Open(PeerOf(s, rest[0]).predConn));
    BusyRead(s, Closing(rest), true, s', p, e);
    SuccessorReadsPredKeeps(s, rest, d, f, p, e, s');
  }

  lemma SuccessorReadsPredKeeps(s: System, rest: seq<NodeId>, d: NodeId, f: Progress, p: Peer, e: Effects, s': System)
    requires RepairInv(s, rest, d, f) && f.met && !f.replaced
    requires Acts(s, Closing(rest), true, p, e, s')
    requires LeftMember(rest, d, f.(replaced := true), 0, p)
    requires e == Effects({}, map[Closing(rest) := Succ(rest[Up(|rest|, 0)])], Open(PeerOf(s, rest[0]).predConn))
    ensures RepairInv(s', rest, d, f.(replaced := true))
  {
    assert LeftAt(s, rest, d, f, 0);
    forall i | 0 <= i < |rest| ensures LeftAt(s', rest, d, f.(replaced := true), i) {
      assert LeftAt(s, rest, d, f, i);
    }
  }

  // The predecessor reads SUCC.
  lemma PredecessorReadsSucc(s: System, rest: seq<NodeId>, d: NodeId, f: Progress, s': System)
    requires RepairInv(s, rest, d, f) && f.replaced && !f.answered
    requires Next(s, Read(Closing(rest), false), s')
    ensures RepairInv(s', rest, d, f.(answered := true))
  {
    assert LeftAt(s, rest, d, f, |rest| - 1);
    var p := PeerOf(s, rest[|rest| - 1]).(secondSucc := rest[Up(|rest|, 0)], awaitingSucc := false);
    QuietRead(s, Closing(rest), false, s', p);
    PredecessorReadsSuccKeeps(s, rest, d, f, p, s');
  }

  lemma PredecessorReadsSuccKeeps(s: System, rest: seq<NodeId>, d: NodeId, f: Progress, p: Peer, s': System)
    requires RepairInv(s, rest, d, f) && f.replaced && !f.answered
    requires Becomes(s, Closing(rest), false, p, s')
    requires LeftMember(rest, d, f.(answered := true), |rest| - 1, p)
    ensures RepairInv(s', rest, d, f.(answered := true))
  {
    assert LeftAt(s, rest, d, f, |rest| - 1);
    forall i | 0 <= i < |rest| ensures LeftAt(s', rest, d, f.(answered := true), i) {
      assert LeftAt(s, rest, d, f, i);
    }
  }

  // The predecessor of the predecessor reads SUCC.
  lemma SecondPredecessorReadsSucc(s: System, rest: seq<NodeId>, d: NodeId, f: Progress, s': System)
    requires RepairInv(s, rest, d, f) && f.noticed && !f.relayed && |rest| > 1
    requires Next(s, Read(Link(rest, |rest| - 2), false), s')
    ensures RepairInv(s', rest, d, f.(relayed := true))
  {
    assert LeftAt(s, rest, d, f, |rest| - 2);
    var p := PeerOf(s, rest[|rest| - 2]).(secondSucc := rest[0], awaitingSucc := false);
    QuietRead(s, Link(rest, |rest| - 2), false, s', p);
    SecondPredecessorReadsSuccKeeps(s, rest, d, f, p, s');
  }

  lemma SecondPredecessorReadsSuccKeeps(s: System, rest: seq<NodeId>, d: NodeId, f: Progress, p: Peer, s': System)
    requires RepairInv(s, rest, d, f) && f.noticed && !f.relayed && |rest| > 1
    requires Becomes(s, Link(rest, |rest| - 2), false, p, s')
    requires LeftMember(rest, d, f.(relayed := true), |rest| - 2, p)
    ensures RepairInv(s', rest, d, f.(relayed := true))
  {
    assert LeftAt(s, rest, d, f, |rest| - 2);
    forall i | 0 <= i < |rest| ensures LeftAt(s', rest, d, f.(relayed := true), i) {
      assert LeftAt(s, rest, d, f, i);
    }
  }

  // What a remaining node can read.
  lemma MemberReads(s: System, rest: seq<NodeId>, d: NodeId, f: Progress, c: Conn, t: bool, i: nat)
    requires RepairInv(s, rest, d, f) && Enabled(s, Read(c, t)) && i < |rest| && Reader(c, t) == rest[i]
    ensures || (c == ToDeparted(rest, d) && !t && !f.noticed)
            || (c == FromDeparted(rest, d) && t && !f.lost && !f.replaced)
            || (c == Closing(rest) && t && f.met && !f.replaced)
            || (c == Closing(rest) && !t && f.replaced && !f.answered)
            || (|rest| > 1 && c == Link(rest, |rest| - 2) && !t && f.noticed && !f.relayed)
  {
    assert LeftAt(s, rest, d, f, i) && LeftAt(s, rest, d, f, Down(|rest|, i));
    assert Up(|rest|, Down(|rest|, i)) == i;
  }

  // Every step there can be takes the repair one step further, and no node exits or leaves.
  lemma RepairStep(s: System, rest: seq<NodeId>, d: NodeId, f: Progress, step: Step, s': System) returns (f': Progress)
    requires RepairInv(s, rest, d, f) && Next(s, step, s')
    ensures RepairInv(s', rest, d, f') && Count(f') == Count(f) + 1
  {
    f' := f;
    match step {
      case Accept(c) =>
        f' := f.(met := true);
        SuccessorAccepts(s, rest, d, f, s');
      case Read(c, t) =>
        var i :| 0 <= i < |rest| && rest[i] == Reader(c, t);
        MemberReads(s, rest, d, f, c, t, i);
        f' := ReadAdvances(s, rest, d, f, c, t, s');
    }
  }

  lemma ReadAdvances(s: System, rest: seq<NodeId>, d: NodeId, f: Progress, c: Conn, t: bool, s': System)
    returns (f': Progress)
    requires RepairInv(s, rest, d, f) && Next(s, Read(c, t), s')
    requires || (c == ToDeparted(rest, d) && !t && !f.noticed)
             || (c == FromDeparted(rest, d) && t && !f.lost && !f.replaced)
             || (c == Closing(rest) && t && f.met && !f.replaced)
             || (c == Closing(rest) && !t && f.replaced && !f.answered)
             || (|rest| > 1 && c == Link(rest, |rest| - 2) && !t && f.noticed && !f.relayed)
    ensures RepairInv(s', rest, d, f') && Count(f') == Count(f) + 1
  {
    assert rest[0] in rest;
    if c == ToDeparted(rest, d) && !t && !f.noticed {
      f' := f.(noticed := true);
      if |rest| > 1 {
        PredecessorNotices(s, rest, d, f, s');
      } else {
        LoneNodeNotices(s, rest, d, f, s');
      }
    } else if c == FromDeparted(rest, d) && t && !f.lost && !f.replaced {
      f' := f.(lost := true);
      SuccessorLoses(s, rest, d, f, s');
    } else if c == Closing(rest) && t && f.met && !f.replaced {
      f' := f.(replaced := true);
      SuccessorReadsPred(s, rest, d, f, s');
    } else if c == Closing(rest) && !t && f.replaced && !f.answered {
      f' := f.(answered := true);
      PredecessorReadsSucc(s, rest, d, f, s');
    } else {
      f' := f.(relayed := true);
      SecondPredecessorReadsSucc(s, rest, d, f, s');
    }
  }

  // Until the repair is finished some step is possible.
  lemma RepairGoesOn(s: System, rest: seq<NodeId>, d: NodeId, f: Progress) returns (step: Step)
    requires RepairInv(s, rest, d, f) && !Finished(|rest|, f)
    ensures Enabled(s, step)
  {
    var n := |rest|;
    assert LeftAt(s, rest, d, f, 0) && LeftAt(s, rest, d, f, n - 1);
    if !f.noticed {
      step := Read(ToDeparted(rest, d), false);
    } else if !f.lost && !f.replaced {
      step := Read(FromDeparted(rest, d), true);
    } else if !f.relayed {
      assert LeftAt(s, rest, d, f, n - 2);
      step := Read(Link(rest, n - 2), false);
    } else if !f.met {
      step := Accept(Closing(rest));
    } else {
      step := Read(Closing(rest), !f.replaced);
    }
  }

  lemma {:induction false} RepairRun(s: System, rest: seq<NodeId>, d: NodeId, states: seq<System>, steps: seq<Step>,
                                     i: nat)
    returns (f: Progress)
    requires Settled(s, rest + [d]) && rest != [] && IsRun(states, steps) && Departs(s, d, states[0]) && i <= |steps|
    ensures RepairInv(states[i], rest, d, f) && Count(f) == i
  {
    if i == 0 {
      f := BEGUN;
      RepairBegins(s, rest, d, states[0]);
    } else {
      var before := RepairRun(s, rest, d, states, steps, i - 1);
      assert StepAt(states, steps, i - 1);
      f := RepairStep(states[i - 1], rest, d, before, steps[i - 1], states[i]);
    }
  }

  // The last node of a settled ring departs.  However the news spreads there are at most 6 steps, and if no further
  // step is possible the others have settled in the same order, with no timeout running.
  lemma DepartureSettles(s: System, rest: seq<NodeId>, d: NodeId, states: seq<System>, steps: seq<Step>)
    requires Settled(s, rest + [d]) && rest != [] && IsRun(states, steps) && Departs(s, d, states[0])
    ensures |steps| <= 6
    ensures (forall step :: !Enabled(states[|steps|], step)) ==> Settled(states[|steps|], rest)
  {
    var f := RepairRun(s, rest, d, states, steps, |steps|);
    if Finished(|rest|, f) {
      RepairEnds(states[|steps|], rest, d, f);
    } else {
      var step := RepairGoesOn(states[|steps|], rest, d, f);
    }
  }

  // The same for any member.
  lemma AnyDepartureSettles(s: System, ring: seq<NodeId>, k: nat, states: seq<System>, steps: seq<Step>)
    requires Settled(s, ring) && |ring| > 1 && k < |ring| && IsRun(states, steps) && Departs(s, ring[k], states[0])
    ensures |steps| <= 6
    ensures (forall step :: !Enabled(states[|steps|], step)) ==> Settled(states[|steps|], ring[k + 1..] + ring[..k])
  {
    SettledFromAnyMember(s, ring, k + 1);
    assert Turn(ring, k + 1) == (ring[k + 1..] + ring[..k]) + [ring[k]];
    DepartureSettles(s, ring[k + 1..] + ring[..k], ring[k], states, steps);
  }

  // So the handlers of `RingNode` may be called at every node throughout; and no node turns to one it has just lost.
  lemma RolesDifferThroughout(s: System, rest: seq<NodeId>, d: NodeId, f: Progress, i: nat)
    requires RepairInv(s, rest, d, f) && i < |rest|
    ensures var p := PeerOf(s, rest[i]);
            && RolesDiffer(p) && Consistent(p)
            && forall c :: p.succConn == Some(c) && Enabled(s, Read(c, false)) && Chan(s, c, false)[0].EndOfFile? ==>
                 c != Conn(p.id, p.secondSucc)
  {
    assert LeftAt(s, rest, d, f, i) && LeftAt(s, rest, d, f, Down(|rest|, i));
  }

  lemma DepartsExists(s: System, d: NodeId) returns (s': System)
    ensures Departs(s, d, s')
  {
    var o := LeaveRing(PeerOf(s, d));
    s' := EffectsExist(s, s.channels, d, o.peer, o.effects);
  }

  const NOTICED := BEGUN.(noticed := true)
  const MET := NOTICED.(met := true)
  const REPLACED := MET.(replaced := true)

  lemma NoticesFirst(s: System, rest: seq<NodeId>, d: NodeId) returns (s': System)
    requires RepairInv(s, rest, d, BEGUN) && |rest| > 1
    ensures Next(s, Read(ToDeparted(rest, d), false), s') && RepairInv(s', rest, d, NOTICED)
  {
    assert LeftAt(s, rest, d, BEGUN, |rest| - 1);
    s' := StepExists(s, Read(ToDeparted(rest, d), false));
    PredecessorNotices(s, rest, d, BEGUN, s');
  }

  lemma MeetsNext(s: System, rest: seq<NodeId>, d: NodeId) returns (s': System)
    requires RepairInv(s, rest, d, NOTICED) && |rest| > 1
    ensures Next(s, Accept(Closing(rest)), s') && RepairInv(s', rest, d, MET)
  {
    s' := StepExists(s, Accept(Closing(rest)));
    SuccessorAccepts(s, rest, d, NOTICED, s');
  }

  lemma ReadsPredNext(s: System, rest: seq<NodeId>, d: NodeId) returns (s': System)
    requires RepairInv(s, rest, d, MET) && |rest| > 1
    ensures Next(s, Read(Closing(rest), true), s') && RepairInv(s', rest, d, REPLACED)
    ensures Chan(s, Closing(rest), true) == [Pred(rest[|rest| - 1])]
    ensures PeerOf(s, rest[0]).predConn == Some(FromDeparted(rest, d))
    ensures PeerOf(s', rest[0]).predConn == Some(Closing(rest))
  {
    assert LeftAt(s, rest, d, MET, 0);
    s' := StepExists(s, Read(Closing(rest), true));
    SuccessorReadsPred(s, rest, d, MET, s');
    assert LeftAt(s', rest, d, REPLACED, 0);
  }

  lemma ThreeSteps(s0: System, a: Step, s1: System, b: Step, s2: System, c: Step, s3: System)
    requires Next(s0, a, s1) && Next(s1, b, s2) && Next(s2, c, s3)
    ensures IsRun([s0, s1, s2, s3], [a, b, c])
  {
    var states, steps := [s0, s1, s2, s3], [a, b, c];
    assert StepAt(states, steps, 0) && StepAt(states, steps, 1) && StepAt(states, steps, 2);
  }

  // PRED can come first: the successor still holds the connection of the departed node when it reads it, and closes it
  // without ever having read its end.
  lemma PredCanComeFirst(s: System, rest: seq<NodeId>, d: NodeId) returns (states: seq<System>, steps: seq<Step>)
    requires Settled(s, rest + [d]) && |rest| > 1
    ensures IsRun(states, steps) && |steps| == 3 && Departs(s, d, states[0])
    ensures steps[2] == Read(Closing(rest), true) && Chan(states[2], Closing(rest), true) == [Pred(rest[|rest| - 1])]
    ensures PeerOf(states[2], rest[0]).predConn == Some(FromDeparted(rest, d))
    ensures PeerOf(states[3], rest[0]).predConn == Some(Closing(rest))
    ensures RepairInv(states[3], rest, d, REPLACED)
  {
    var s0 := DepartsExists(s, d);
    RepairBegins(s, rest, d, s0);
    var s1 := NoticesFirst(s0, rest, d);
    var s2 := MeetsNext(s1, rest, d);
    var s3 := ReadsPredNext(s2, rest, d);
    states := [s0, s1, s2, s3];
    steps := [Read(ToDeparted(rest, d), false), Accept(Closing(rest)), Read(Closing(rest), true)];
    ThreeSteps(s0, steps[0], s1, steps[1], s2, steps[2], s3);
  }
}
