/** In a join and in a repair no program exits, and no connection is dialed while an old one of the same name is open.
    So the two ends of every connection match throughout. */
module RingNames {
  import opened Nodes
  import opened Wrappers
  import opened Ring
  import opened RingLaws
  import opened RingEnds
  import J = RingJoin
  import D = RingDeparture

  lemma NewcomerIsProper(s: System, ring: seq<NodeId>, x: NodeId, joins: nat, f: J.Progress, c: Conn, t: bool)
    requires J.JoinInv(s, ring, x, joins, f) && Enabled(s, Read(c, t)) && Reader(c, t) == x
    ensures Proper(s, Read(c, t))
  {
    J.NewcomerReads(s, ring, x, joins, f, c, t);
  }

  lemma MemberIsProper(s: System, ring: seq<NodeId>, x: NodeId, joins: nat, f: J.Progress, c: Conn, t: bool, i: nat)
    requires J.JoinInv(s, ring, x, joins, f) && Enabled(s, Read(c, t)) && i < |ring| && Reader(c, t) == ring[i]
    ensures Proper(s, Read(c, t))
  {
    J.MemberReads(s, ring, x, joins, f, c, t, i);
    assert J.JoinAt(s, ring, x, f, i);
    J.RolesDifferThroughout(s, ring, x, joins, f, i);
    assert |ring| > 1 ==> Link(ring, |ring| - 2) == Conn(ring[|ring| - 2], ring[|ring| - 1]);
  }

  // Every step of a join is proper.
  lemma JoinIsProper(s: System, ring: seq<NodeId>, x: NodeId, joins: nat, f: J.Progress, step: Step)
    requires J.JoinInv(s, ring, x, joins, f) && Enabled(s, step)
    ensures Proper(s, step)
  {
    if step.Read? {
      if Reader(step.c, step.toAcceptor) == x {
        NewcomerIsProper(s, ring, x, joins, f, step.c, step.toAcceptor);
      } else {
        var i :| 0 <= i < |ring| && ring[i] == Reader(step.c, step.toAcceptor);
        MemberIsProper(s, ring, x, joins, f, step.c, step.toAcceptor, i);
      }
    }
  }

  // And every step of a repair.
  lemma RepairIsProper(s: System, rest: seq<NodeId>, d: NodeId, f: D.Progress, step: Step)
    requires D.RepairInv(s, rest, d, f) && Enabled(s, step)
    ensures Proper(s, step)
  {
    if step.Read? {
      var i :| 0 <= i < |rest| && rest[i] == Reader(step.c, step.toAcceptor);
      D.MemberReads(s, rest, d, f, step.c, step.toAcceptor, i);
      assert D.LeftAt(s, rest, d, f, i) && D.LeftAt(s, rest, d, f, 0);
      D.RolesDifferThroughout(s, rest, d, f, i);
    }
  }

  lemma JoinStepIsProper(s: System, ring: seq<NodeId>, x: NodeId, states: seq<System>, steps: seq<Step>, i: nat)
    requires IsRun(states, steps) && i < |steps|
    requires Settled(s, ring) && x !in ring && J.StartsJoining(s, ring, x, states[0])
    ensures ProperAt(states, steps, i)
  {
    var f := J.JoinRun(s, ring, x, states, steps, i);
    assert StepAt(states, steps, i);
    JoinIsProper(states[i], ring, x, PeerOf(s, x).joinEnds, f, steps[i]);
  }

  // From a ring whose ends match, with a node that has no connections.
  lemma JoinKeepsMatch(s: System, ring: seq<NodeId>, x: NodeId, states: seq<System>, steps: seq<Step>, i: nat)
    requires Settled(s, ring) && x !in ring && PeerOf(s, x).state == DISCONNECTED && EndsMatch(s)
    requires IsRun(states, steps) && i <= |steps| && J.StartsJoining(s, ring, x, states[0])
    ensures EndsMatch(states[i])
  {
    assert SettledAt(s, ring, 0) && PeerOf(s, x).id == x;
    JoiningKeepsMatch(s, x, ring[0], states[0]);
    forall k | 0 <= k < i ensures ProperAt(states, steps, k) {
      JoinStepIsProper(s, ring, x, states, steps, k);
    }
    EndsMatchThroughout(states, steps, i);
  }

  lemma RepairStepIsProper(s: System, rest: seq<NodeId>, d: NodeId, states: seq<System>, steps: seq<Step>, i: nat)
    requires IsRun(states, steps) && i < |steps|
    requires Settled(s, rest + [d]) && rest != [] && D.Departs(s, d, states[0])
    ensures ProperAt(states, steps, i)
  {
    var f := D.RepairRun(s, rest, d, states, steps, i);
    assert StepAt(states, steps, i);
    RepairIsProper(states[i], rest, d, f, steps[i]);
  }

  lemma RepairKeepsMatch(s: System, rest: seq<NodeId>, d: NodeId, states: seq<System>, steps: seq<Step>, i: nat)
    requires Settled(s, rest + [d]) && rest != [] && EndsMatch(s)
    requires IsRun(states, steps) && i <= |steps| && D.Departs(s, d, states[0])
    ensures EndsMatch(states[i])
  {
    LeavingKeepsMatch(s, d, states[0]);
    forall k | 0 <= k < i ensures ProperAt(states, steps, k) {
      RepairStepIsProper(s, rest, d, states, steps, k);
    }
    EndsMatchThroughout(states, steps, i);
  }
}
