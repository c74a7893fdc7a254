/** Both ends of every connection of the ring: when one end is closed the other one hears of it, in every run of any
    joins, repairs and departures, overlapping or not. */
module RingEnds {
  import opened Nodes
  import opened Wrappers
  import opened Ring
  import opened RingLaws

  predicate Ended(q: seq<Message>) {
    q != [] && q[|q| - 1] == EndOfFile
  }

  predicate OpenAtOpener(s: System, d: Conn) {
    HasRole(PeerOf(s, d.opener), d)
  }

  predicate OpenAtAcceptor(s: System, d: Conn) {
    HasRole(PeerOf(s, d.acceptor), d)
  }

  // Whoever has a connection open, or has still to accept it, has a partner or will read that it has gone.
  predicate Matched(s: System, d: Conn) {
    && (OpenAtOpener(s, d) ==> OpenAtAcceptor(s, d) || d in s.waiting || Ended(Chan(s, d, false)))
    && (OpenAtAcceptor(s, d) || d in s.waiting ==> OpenAtOpener(s, d) || Ended(Chan(s, d, true)))
    && (d in s.waiting ==> !OpenAtAcceptor(s, d) && d.opener != d.acceptor)
  }

  ghost predicate EndsMatch(s: System) {
    && (forall y :: PeerOf(s, y).id == y && Consistent(PeerOf(s, y)))
    && (forall d :: Matched(s, d))
  }

  // `Ring` tells connections apart by where they lead, so none is dialed while there is an old one at the other end.
  predicate NewName(s: System, d: Conn) {
    d !in s.waiting && !OpenAtAcceptor(s, d)
  }

  // No program exits, and what is dialed has a new name.
  ghost predicate Proper(s: System, step: Step) {
    match step
    case Accept(_) => true
    case Read(c, t) =>
      Chan(s, c, t) != [] &&
      match Handle(PeerOf(s, Reader(c, t)), c, Chan(s, c, t)[0])
      case Exit => false
      case Continue(_, e) => forall d :: d in e.dialed ==> NewName(s, d)
  }

  // Only on a connection with a role anything is said, and the end of it takes the role away.
  lemma SpeaksOnRoles(p: Peer, c: Conn, m: Message, d: Conn)
    requires Consistent(p) && Handle(p, c, m).Continue? && !HasRole(p, d) && d !in Handle(p, c, m).effects.dialed
    ensures var o := Handle(p, c, m);
            d !in o.effects.sent && d !in o.effects.closed && !HasRole(o.peer, d)
  {
    ClosedExactlyWhen(p, c, m, d);
    DialedExactlyWhen(p, c, m, d);
    if d in Handle(p, c, m).effects.sent {
      SaidExactlyWhen(p, c, m, d);
    }
  }

  lemma EndIsNoticed(p: Peer, c: Conn)
    requires Consistent(p) && HasRole(p, c) && Handle(p, c, EndOfFile).Continue?
    ensures c in Handle(p, c, EndOfFile).effects.closed
  {
  }

  lemma NothingAdded(q: seq<Message>)
    ensures q + [] + [] == q
  {
  }

  // The reading node is the opener of `d`, and neither has it open nor dials it.
  lemma OpenerDoesNothing(s: System, c: Conn, t: bool, s': System, d: Conn)
    requires EndsMatch(s) && Next(s, Read(c, t), s') && Proper(s, Read(c, t))
    requires d.opener == Reader(c, t) != d.acceptor && !OpenAtOpener(s, d)
    requires d !in Handle(PeerOf(s, d.opener), c, Chan(s, c, t)[0]).effects.dialed
    ensures Matched(s', d)
  {
    assert Matched(s, d) && Consistent(PeerOf(s, d.opener));
    SpeaksOnRoles(PeerOf(s, d.opener), c, Chan(s, c, t)[0], d);
    NothingAdded(Chan(s, d, true));
    NothingAdded(Chan(s, d, false));
  }

  // It dials it.
  lemma OpenerDials(s: System, c: Conn, t: bool, s': System, d: Conn)
    requires EndsMatch(s) && Next(s, Read(c, t), s') && Proper(s, Read(c, t))
    requires d.opener == Reader(c, t) != d.acceptor
    requires d in Handle(PeerOf(s, d.opener), c, Chan(s, c, t)[0]).effects.dialed
    ensures Matched(s', d)
  {
    assert Matched(s, d) && Consistent(PeerOf(s, d.opener));
    DialedExactlyWhen(PeerOf(s, d.opener), c, Chan(s, c, t)[0], d);
  }

  // It has it open.
  lemma OpenerActs(s: System, c: Conn, t: bool, s': System, d: Conn)
    requires EndsMatch(s) && Next(s, Read(c, t), s') && Proper(s, Read(c, t))
    requires d.opener == Reader(c, t) != d.acceptor && OpenAtOpener(s, d)
    requires d !in Handle(PeerOf(s, d.opener), c, Chan(s, c, t)[0]).effects.dialed
    ensures Matched(s', d)
  {
    var p, m := PeerOf(s, d.opener), Chan(s, c, t)[0];
    assert Matched(s, d) && Consistent(p);
    ClosedExactlyWhen(p, c, m, d);
    if m.EndOfFile? {
      EndIsNoticed(p, c);
    }
  }

  // The reading node is the acceptor of `d`, but does not have it open.
  lemma AcceptorDoesNothing(s: System, c: Conn, t: bool, s': System, d: Conn)
    requires EndsMatch(s) && Next(s, Read(c, t), s') && Proper(s, Read(c, t))
    requires d.acceptor == Reader(c, t) != d.opener && !OpenAtAcceptor(s, d)
    ensures Matched(s', d)
  {
    var x, m := Reader(c, t), Chan(s, c, t)[0];
    assert Matched(s, d) && Consistent(PeerOf(s, x));
    DialedExactlyWhen(PeerOf(s, x), c, m, d);
    SpeaksOnRoles(PeerOf(s, x), c, m, d);
    NothingAdded(Chan(s, d, false));
    NothingAdded(Chan(s, d, true));
  }

  // It has it open.
  lemma AcceptorActs(s: System, c: Conn, t: bool, s': System, d: Conn)
    requires EndsMatch(s) && Next(s, Read(c, t), s') && Proper(s, Read(c, t))
    requires d.acceptor == Reader(c, t) != d.opener && OpenAtAcceptor(s, d)
    ensures Matched(s', d)
  {
    var x, m := Reader(c, t), Chan(s, c, t)[0];
    var p := PeerOf(s, x);
    assert Matched(s, d) && Consistent(p);
    ClosedExactlyWhen(p, c, m, d);
    DialedExactlyWhen(p, c, m, d);
    if m.EndOfFile? {
      EndIsNoticed(p, c);
    }
  }

  // It is neither.
  lemma OthersAct(s: System, c: Conn, t: bool, s': System, d: Conn)
    requires EndsMatch(s) && Next(s, Read(c, t), s') && Proper(s, Read(c, t))
    requires d.acceptor != Reader(c, t) && d.opener != Reader(c, t)
    ensures Matched(s', d)
  {
    var x, m := Reader(c, t), Chan(s, c, t)[0];
    assert Matched(s, d) && Consistent(PeerOf(s, x));
    DialedExactlyWhen(PeerOf(s, x), c, m, d);
  }

  // A connection to oneself has no role.
  lemma NothingToOneself(s: System, d: Conn)
    requires (forall y :: PeerOf(s, y).id == y && Consistent(PeerOf(s, y))) && d.opener == d.acceptor && d !in s.waiting
    ensures Matched(s, d)
  {
    assert Consistent(PeerOf(s, d.opener));
  }

  lemma ReadKeepsMatch(s: System, c: Conn, t: bool, s': System)
    requires EndsMatch(s) && Next(s, Read(c, t), s') && Proper(s, Read(c, t))
    ensures EndsMatch(s')
  {
    var x, m := Reader(c, t), Chan(s, c, t)[0];
    ConsistentKept(PeerOf(s, x), c, m);
    forall d ensures Matched(s', d) {
      if d.opener == d.acceptor {
        assert Matched(s, d);
        DialedExactlyWhen(PeerOf(s, x), c, m, d);
        NothingToOneself(s', d);
      } else if d.opener == x {
        if d in Handle(PeerOf(s, x), c, m).effects.dialed {
          OpenerDials(s, c, t, s', d);
        } else if OpenAtOpener(s, d) {
          OpenerActs(s, c, t, s', d);
        } else {
          OpenerDoesNothing(s, c, t, s', d);
        }
      } else if d.acceptor == x && OpenAtAcceptor(s, d) {
        AcceptorActs(s, c, t, s', d);
      } else if d.acceptor == x {
        AcceptorDoesNothing(s, c, t, s', d);
      } else {
        OthersAct(s, c, t, s', d);
      }
    }
  }

  lemma AcceptedMatches(s: System, c: Conn, s': System, d: Conn)
    requires EndsMatch(s) && Next(s, Accept(c), s')
    ensures Matched(s', d)
  {
    assert Matched(s, d) && Matched(s, c);
    NothingAdded(Chan(s, d, true));
    NothingAdded(Chan(s, d, false));
  }

  lemma AcceptKeepsMatch(s: System, c: Conn, s': System)
    requires EndsMatch(s) && Next(s, Accept(c), s')
    ensures EndsMatch(s')
  {
    assert Matched(s, c) && Consistent(PeerOf(s, c.acceptor));
    forall d ensures Matched(s', d) {
      AcceptedMatches(s, c, s', d);
    }
  }

  ghost predicate ProperAt(states: seq<System>, steps: seq<Step>, i: nat)
    requires |states| == |steps| + 1 && i < |steps|
  {
    Proper(states[i], steps[i])
  }

  lemma MatchStep(states: seq<System>, steps: seq<Step>, i: nat)
    requires IsRun(states, steps) && i < |steps| && ProperAt(states, steps, i) && EndsMatch(states[i])
    ensures EndsMatch(states[i + 1])
  {
    assert StepAt(states, steps, i);
    match steps[i] {
      case Accept(c) => AcceptKeepsMatch(states[i], c, states[i + 1]);
      case Read(c, t) => ReadKeepsMatch(states[i], c, t, states[i + 1]);
    }
  }

  // In every run the ends match throughout.
  lemma {:induction false} EndsMatchThroughout(states: seq<System>, steps: seq<Step>, i: nat)
    requires IsRun(states, steps) && EndsMatch(states[0]) && i <= |steps|
    requires forall k :: 0 <= k < i ==> ProperAt(states, steps, k)
    ensures EndsMatch(states[i])
  {
    if i > 0 {
      EndsMatchThroughout(states, steps, i - 1);
      MatchStep(states, steps, i - 1);
    }
  }

  // So when everything has been accepted and read, every connection is open at both ends or at neither.
  lemma QuietEndsAgree(s: System, d: Conn)
    requires EndsMatch(s) && s.waiting == {} && Chan(s, d, true) == [] && Chan(s, d, false) == []
    ensures OpenAtOpener(s, d) <==> OpenAtAcceptor(s, d)
  {
    assert Matched(s, d);
  }

  // Before anything happens they match, ...
  lemma MatchedAtFirst(s: System)
    requires s.waiting == {} && forall y :: PeerOf(s, y) == Off(y)
    ensures EndsMatch(s)
  {
  }

  // ... when a node without connections starts to join they still do, ...
  lemma JoiningKeepsMatch(s: System, x: NodeId, target: NodeId, s': System)
    requires EndsMatch(s) && target != x && PeerOf(s, x).state == DISCONNECTED && NewName(s, Conn(x, target))
    requires forall d :: !HasRole(PeerOf(s, x), d)
    requires var o := JoinRing(PeerOf(s, x), target);
             && (forall y :: PeerOf(s', y) == if y == x then o.peer else PeerOf(s, y))
             && (forall c, t :: Chan(s', c, t) == After(Chan(s, c, t), x, o.effects, c, t))
             && s'.waiting == s.waiting + o.effects.dialed
    ensures EndsMatch(s')
  {
    forall d ensures Matched(s', d) {
      assert Matched(s, d);
      NothingAdded(Chan(s, d, true));
      NothingAdded(Chan(s, d, false));
    }
  }

  // ... and when a node leaves the ring, whatever it was doing.
  lemma LeavingKeepsMatch(s: System, x: NodeId, s': System)
    requires EndsMatch(s)
    requires var o := LeaveRing(PeerOf(s, x));
             && (forall y :: PeerOf(s', y) == if y == x then o.peer else PeerOf(s, y))
             && (forall c, t :: Chan(s', c, t) == After(Chan(s, c, t), x, o.effects, c, t))
             && s'.waiting == s.waiting
    ensures EndsMatch(s') && PeerOf(s', x).state == DISCONNECTED && forall d :: !HasRole(PeerOf(s', x), d)
  {
    assert Consistent(PeerOf(s, x));
    forall d ensures Matched(s', d) {
      assert Matched(s, d);
      NothingAdded(Chan(s, d, true));
      NothingAdded(Chan(s, d, false));
    }
  }
}
