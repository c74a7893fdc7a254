/** A ghost route that needs no column left behind: remove_neighbor_connection keeps the column of a neighbour as long
    as another connection to it is open (ring.c:162-167), but what was unread on the connection that was closed is
    lost.

    Node 2 writes its path to node 3 on two connections to node 1 and then, on both, that it has none any more.  Node 1
    reads the first connection to the end, the second up to the path, and closes the second.  Two connections are
    nothing unusual: a node that enters a ring of one opens the second at once (ring.c:399-427). */
module ParallelGhost {
  import opened Nodes
  import opened Wrappers
  import opened RoutingSpec
  import opened Network
  import opened Convergence

  const E23 := End(2, 3, 0)
  const E32 := End(3, 2, 0)
  const E21 := End(2, 1, 0)
  const E12 := End(1, 2, 0)
  const F21 := End(2, 1, 1)
  const F12 := End(1, 2, 1)
  const ENDS := {E23, E32, E21, E12, F21, F12}

  // What is unread at the ends of the same names.
  datatype Queues = Queues(e23: seq<Message>, e32: seq<Message>, e21: seq<Message>, e12: seq<Message>,
                           f21: seq<Message>, f12: seq<Message>)

  function At(t1: Table, t2: Table, open: set<End>, q: Queues): Net {
    Net(map[1 := t1, 2 := t2], open,
        map[E23 := q.e23, E32 := q.e32, E21 := q.e21, E12 := q.e12, F21 := q.f21, F12 := q.f12])
  }

  const KNOWS1 := Table(map[(1, 1) := []], map[1 := 1])
  const KNOWS2 := Table(map[(2, 2) := []], map[2 := 2])
  const KNOWS3 := Table(map[(3, 3) := []], map[3 := 3])
  const KNOWS23 := Table(map[(2, 2) := [], (3, 2) := [2]], map[2 := 2, 3 := 2])

  const W3 := Announcement(3, None)
  const M1 := RouteMsg(Says(1, []))
  const M2 := RouteMsg(Says(2, []))
  const M3 := RouteMsg(Says(3, []))
  const M12 := RouteMsg(Says(1, [2]))
  const M21 := RouteMsg(Says(2, [1]))
  const M32 := RouteMsg(Says(3, [2]))
  const M312 := RouteMsg(Says(3, [1, 2]))
  const M3W := RouteMsg(W3)

  const NODES: set<NodeId> := {1, 2, 3}

  const OPEN2 := {E32, E23}
  const OPEN5 := {E32, E23, E21}
  const OPEN6 := {E32, E23, E21, F21}
  const OPEN7 := {E32, E21, F21}
  const OPEN9 := {E32, E21, F21, E12, F12}
  const OPEN17 := {E32, E21, F21, E12}
  const OPEN19 := {E21, E12}

  const P0 := At(EMPTY_TABLE, EMPTY_TABLE, {}, Queues([], [], [], [], [], []))
  const P1 := At(EMPTY_TABLE, EMPTY_TABLE, {E32}, Queues([Hello, M3], [], [], [], [], []))
  const P2 := At(EMPTY_TABLE, EMPTY_TABLE, OPEN2, Queues([Hello, M3], [], [], [], [], []))
  const P3 := At(EMPTY_TABLE, EMPTY_TABLE, OPEN2, Queues([M3], [M2], [], [], [], []))
  const P4 := At(EMPTY_TABLE, KNOWS3, OPEN2, Queues([], [M2, M32], [], [], [], []))
  const P5 := At(EMPTY_TABLE, KNOWS3, OPEN5, Queues([], [M2, M32], [], [Hello, M2, M32], [], []))
  const P6 := At(EMPTY_TABLE, KNOWS3, OPEN6, Queues([], [M2, M32], [], [Hello, M2, M32], [], [Hello, M2, M32]))
  const P7 := At(EMPTY_TABLE, EMPTY_TABLE, OPEN7,
                 Queues([], [M2, M32], [], [Hello, M2, M32, M3W], [], [Hello, M2, M32, M3W]))
  const P8 := P7.(open := OPEN7 + {E12})
  const P9 := At(EMPTY_TABLE, EMPTY_TABLE, OPEN9,
                 Queues([], [M2, M32], [], [Hello, M2, M32, M3W], [], [Hello, M2, M32, M3W]))
  const P10 := At(EMPTY_TABLE, EMPTY_TABLE, OPEN9,
                  Queues([], [M2, M32], [M1], [M2, M32, M3W], [], [Hello, M2, M32, M3W]))
  const P11 := At(EMPTY_TABLE, EMPTY_TABLE, OPEN9, Queues([], [M2, M32], [M1], [M2, M32, M3W], [M1], [M2, M32, M3W]))
  const P12 := At(KNOWS2, EMPTY_TABLE, OPEN9, Queues([], [M2, M32], [M1, M21], [M32, M3W], [M1, M21], [M2, M32, M3W]))
  const P13 := At(KNOWS23, EMPTY_TABLE, OPEN9,
                  Queues([], [M2, M32], [M1, M21, M312], [M3W], [M1, M21, M312], [M2, M32, M3W]))
  const P14 := At(KNOWS2, EMPTY_TABLE, OPEN9,
                  Queues([], [M2, M32], [M1, M21, M312, M3W], [], [M1, M21, M312, M3W], [M2, M32, M3W]))
  const P15 := At(KNOWS2, EMPTY_TABLE, OPEN9,
                  Queues([], [M2, M32], [M1, M21, M312, M3W], [], [M1, M21, M312, M3W], [M32, M3W]))
  const P16 := At(KNOWS23, EMPTY_TABLE, OPEN9,
                  Queues([], [M2, M32], [M1, M21, M312, M3W, M312], [], [M1, M21, M312, M3W, M312], [M3W]))
  const P17 := At(KNOWS23, EMPTY_TABLE, OPEN17,
                  Queues([], [M2, M32], [M1, M21, M312, M3W, M312], [], [M1, M21, M312, M3W, M312], []))
  const P18 := At(KNOWS23, EMPTY_TABLE, {E32, E21, E12}, Queues([], [M2, M32], [M1, M21, M312, M3W, M312], [], [], []))
  const P19 := At(KNOWS23, EMPTY_TABLE, OPEN19, Queues([], [], [M1, M21, M312, M3W, M312], [], [], []))
  const P20 := At(KNOWS23, KNOWS1, OPEN19, Queues([], [], [M21, M312, M3W, M312], [M12], [], []))
  const P21 := At(KNOWS23, KNOWS1, OPEN19, Queues([], [], [M312, M3W, M312], [M12], [], []))
  const P22 := At(KNOWS23, KNOWS1, OPEN19, Queues([], [], [M3W, M312], [M12], [], []))
  const P23 := At(KNOWS23, KNOWS1, OPEN19, Queues([], [], [M312], [M12], [], []))
  const P24 := At(KNOWS23, KNOWS1, OPEN19, Queues([], [], [], [M12], [], []))
  const P25 := At(KNOWS23, KNOWS1, OPEN19, Queues([], [], [], [], [], []))

  // Node 2 reads a message from node 3.
  lemma Node2Reads3(t1: Table, t2: Table, q: Queues, t2': Table, changed: bool)
    requires q.e23 != [] && q.e23[0].RouteMsg? && ReceiveRoute(2, t2, 3, q.e23[0].a, t2', changed)
    ensures var w := Wrap(Reaction(2, t2', q.e23[0].a.recipient, changed));
            DeliverStep(At(t1, t2, OPEN2, q), E23, changed, At(t1, t2', OPEN2, q.(e23 := q.e23[1..], e32 := q.e32 + w)))
  {
  }

  // Node 2 reads a message from node 1.
  lemma Node2Reads1(t1: Table, t2: Table, q: Queues, t2': Table, changed: bool)
    requires q.e21 != [] && q.e21[0].RouteMsg? && ReceiveRoute(2, t2, 1, q.e21[0].a, t2', changed)
    ensures var w := Wrap(Reaction(2, t2', q.e21[0].a.recipient, changed));
            DeliverStep(At(t1, t2, OPEN19, q), E21, changed,
                        At(t1, t2', OPEN19, q.(e21 := q.e21[1..], e12 := q.e12 + w)))
  {
  }

  // Node 1 reads a message from node 2 on the first connection, or on the second.
  lemma Node1ReadsFirst(t1: Table, t2: Table, open: set<End>, q: Queues, t1': Table, changed: bool)
    requires {E12} <= open <= ENDS && q.e12 != [] && q.e12[0].RouteMsg?
    requires ReceiveRoute(1, t1, 2, q.e12[0].a, t1', changed)
    ensures var w := Wrap(Reaction(1, t1', q.e12[0].a.recipient, changed));
            DeliverStep(At(t1, t2, open, q), E12, changed,
                        At(t1', t2, open, q.(e12 := q.e12[1..], e21 := q.e21 + w,
                                             f21 := if F12 in open then q.f21 + w else q.f21)))
  {
  }

  lemma Node1ReadsSecond(t1: Table, t2: Table, q: Queues, t1': Table, changed: bool)
    requires q.f12 != [] && q.f12[0].RouteMsg? && ReceiveRoute(1, t1, 2, q.f12[0].a, t1', changed)
    ensures var w := Wrap(Reaction(1, t1', q.f12[0].a.recipient, changed));
            DeliverStep(At(t1, t2, OPEN9, q), F12, changed,
                        At(t1', t2, OPEN9, q.(f12 := q.f12[1..], e21 := q.e21 + w, f21 := q.f21 + w)))
  {
  }

  // Every connection that goes down is closed with remove_neighbor_connection.
  predicate ClosesProperly(step: Step) {
    !step.Drop? && !step.Leave?
  }

  lemma Extend(states: seq<Net>, steps: seq<Step>, step: Step, s': Net) returns (states': seq<Net>, steps': seq<Step>)
    requires Run(NODES, states, steps) && forall x :: x in steps ==> ClosesProperly(x)
    requires Next(NODES, states[|steps|], step, s') && ClosesProperly(step)
    ensures Run(NODES, states', steps') && forall x :: x in steps' ==> ClosesProperly(x)
    ensures states'[|steps'|] == s'
  {
    states', steps' := states + [s'], steps + [step];
    RunExtends(NODES, states, steps, step, s');
  }

  lemma Node2Knows3()
    ensures ReceiveRoute(2, EMPTY_TABLE, 3, Says(3, []), KNOWS3, true)
    ensures Wrap(Reaction(2, KNOWS3, 3, true)) == [M32]
    ensures Dump(2, KNOWS3, [Says(2, []), Says(3, [2])]) && Wrap([Says(2, []), Says(3, [2])]) == [M2, M32]
  {
    assert Best(KNOWS3, 3) == Some(BestPath(3, [])) && [2] + [] == [2];
    var out := [Says(2, []), Says(3, [2])];
    assert out[0] in out && out[1] in out;
  }

  lemma FirstSteps()
    ensures Init(P0) && ConnectStep(NODES, P0, E32, [Says(3, [])], P1) && AcceptStep(P1, E23, P2)
  {
  }

  lemma Node2Answers3()
    ensures GreetStep(P2, E23, [Says(2, [])], P3)
  {
  }

  lemma Node2LearnsOf3()
    ensures DeliverStep(P3, E23, true, P4)
  {
    Node2Knows3();
    Node2Reads3(EMPTY_TABLE, EMPTY_TABLE, Queues([M3], [M2], [], [], [], []), KNOWS3, true);
    assert [M3][1..] == [] && [M2] + [M32] == [M2, M32];
  }

  lemma LinksOnce()
    ensures ConnectStep(NODES, P4, E21, [Says(2, []), Says(3, [2])], P5)
  {
    Node2Knows3();
    assert [Hello] + [M2, M32] == [Hello, M2, M32];
  }

  lemma LinksTwice()
    ensures ConnectStep(NODES, P5, F21, [Says(2, []), Says(3, [2])], P6)
  {
    Node2Knows3();
    assert [Hello] + [M2, M32] == [Hello, M2, M32];
  }

  lemma Removes3()
    ensures Removal(2, KNOWS3, 3, EMPTY_TABLE, [W3]) && Wrap([W3]) == [M3W]
  {
    assert Best(KNOWS3, 3) == Some(BestPath(3, [])) && Best(EMPTY_TABLE, 3) == None;
    assert [W3][0] == W3;
  }

  lemma Node2Loses3()
    ensures CloseStep(P6, E23, [W3], P7)
  {
    Removes3();
    assert [Hello, M2, M32] + [M3W] == [Hello, M2, M32, M3W];
  }

  lemma Node1Accepts()
    ensures AcceptStep(P7, E12, P8) && AcceptStep(P8, F12, P9)
  {
  }

  lemma Node1Answers()
    ensures GreetStep(P9, E12, [Says(1, [])], P10)
  {
    assert Wrap([Says(1, [])]) == [M1] && [Hello, M2, M32, M3W][1..] == [M2, M32, M3W];
  }

  lemma Node1AnswersAgain()
    ensures GreetStep(P10, F12, [Says(1, [])], P11)
  {
    assert Wrap([Says(1, [])]) == [M1] && [Hello, M2, M32, M3W][1..] == [M2, M32, M3W];
  }

  lemma Node1Knows2()
    ensures ReceiveRoute(1, EMPTY_TABLE, 2, Says(2, []), KNOWS2, true)
    ensures Wrap(Reaction(1, KNOWS2, 2, true)) == [M21]
    ensures ReceiveRoute(1, KNOWS2, 2, Says(2, []), KNOWS2, false)
    ensures Wrap(Reaction(1, KNOWS2, 2, false)) == []
  {
    assert Best(KNOWS2, 2) == Some(BestPath(2, [])) && [1] + [] == [1];
  }

  lemma Node1Knows23()
    ensures ReceiveRoute(1, KNOWS2, 2, Says(3, [2]), KNOWS23, true)
    ensures Wrap(Reaction(1, KNOWS23, 3, true)) == [M312]
  {
    assert Best(KNOWS23, 3) == Some(BestPath(2, [2])) && [1] + [2] == [1, 2];
  }

  lemma Node1Forgets3()
    ensures ReceiveRoute(1, KNOWS23, 2, W3, KNOWS2, true)
    ensures Wrap(Reaction(1, KNOWS2, 3, true)) == [M3W]
  {
    assert Best(KNOWS23, 3) == Some(BestPath(2, [2])) && Best(KNOWS2, 3) == None;
  }

  lemma Node1LearnsOf2()
    ensures DeliverStep(P11, E12, true, P12)
  {
    Node1Knows2();
    Node1ReadsFirst(EMPTY_TABLE, EMPTY_TABLE, OPEN9,
                    Queues([], [M2, M32], [M1], [M2, M32, M3W], [M1], [M2, M32, M3W]), KNOWS2, true);
    assert [M1] + [M21] == [M1, M21] && [M2, M32, M3W][1..] == [M32, M3W];
  }

  lemma Node1LearnsOf3()
    ensures DeliverStep(P12, E12, true, P13)
  {
    Node1Knows23();
    Node1ReadsFirst(KNOWS2, EMPTY_TABLE, OPEN9,
                    Queues([], [M2, M32], [M1, M21], [M32, M3W], [M1, M21], [M2, M32, M3W]), KNOWS23, true);
    assert [M1, M21] + [M312] == [M1, M21, M312] && [M32, M3W][1..] == [M3W];
  }

  lemma Node1HearsOfTheLoss()
    ensures DeliverStep(P13, E12, true, P14)
  {
    Node1Forgets3();
    Node1ReadsFirst(KNOWS23, EMPTY_TABLE, OPEN9,
                    Queues([], [M2, M32], [M1, M21, M312], [M3W], [M1, M21, M312], [M2, M32, M3W]), KNOWS2, true);
    assert [M1, M21, M312] + [M3W] == [M1, M21, M312, M3W] && [M3W][1..] == [];
  }

  lemma Node1ReadsOldNews()
    ensures DeliverStep(P14, F12, false, P15)
  {
    Node1Knows2();
    Node1ReadsSecond(KNOWS2, EMPTY_TABLE,
                     Queues([], [M2, M32], [M1, M21, M312, M3W], [], [M1, M21, M312, M3W], [M2, M32, M3W]), KNOWS2,
                       false);
    assert [M1, M21, M312, M3W] + [] == [M1, M21, M312, M3W] && [M2, M32, M3W][1..] == [M32, M3W];
  }

  lemma Node1LearnsOf3Again()
    ensures DeliverStep(P15, F12, true, P16)
  {
    Node1Knows23();
    Node1ReadsSecond(KNOWS2, EMPTY_TABLE,
                     Queues([], [M2, M32], [M1, M21, M312, M3W], [], [M1, M21, M312, M3W], [M32, M3W]), KNOWS23, true);
    assert [M1, M21, M312, M3W] + [M312] == [M1, M21, M312, M3W, M312] && [M32, M3W][1..] == [M3W];
  }

  // The connection with the withdrawal on it is closed, and the column stays.
  lemma Node1ClosesTheSecond()
    ensures CloseStep(P16, F12, [], P17)
  {
    assert KnownOtherwise(P16, F12) by {
      assert SameNodes(F12, E12) && Introduced(P16, E12);
    }
    assert [M1, M21, M312, M3W, M312] + Wrap([]) == [M1, M21, M312, M3W, M312];
  }

  lemma Node2ClosesTheSecond()
    ensures CloseStep(P17, F21, [], P18)
  {
    assert KnownOtherwise(P17, F21) by {
      assert SameNodes(F21, E21) && Introduced(P17, E21);
    }
    assert [M2, M32] + Wrap([]) == [M2, M32] && [] + Wrap([]) == [];
  }

  lemma Node3Closes()
    ensures CloseStep(P18, E32, [], P19)
  {
    assert [] + Wrap([]) == [];
  }

  lemma Node2Knows1()
    ensures ReceiveRoute(2, EMPTY_TABLE, 1, Says(1, []), KNOWS1, true)
    ensures Wrap(Reaction(2, KNOWS1, 1, true)) == [M12]
  {
    assert Best(KNOWS1, 1) == Some(BestPath(1, [])) && [2] + [] == [2];
  }

  lemma Node2LearnsOf1()
    ensures DeliverStep(P19, E21, true, P20)
  {
    Node2Knows1();
    Node2Reads1(KNOWS23, EMPTY_TABLE, Queues([], [], [M1, M21, M312, M3W, M312], [], [], []), KNOWS1, true);
    assert [M1, M21, M312, M3W, M312][1..] == [M21, M312, M3W, M312] && [] + [M12] == [M12];
  }

  // Node 2 reads what is of no use to it: paths through itself, and that there is none.
  lemma Node2ReadsOn(q: seq<Message>)
    requires q != [] && q[0] in [M21, M312, M3W]
    ensures DeliverStep(At(KNOWS23, KNOWS1, OPEN19, Queues([], [], q, [M12], [], [])), E21, false,
                        At(KNOWS23, KNOWS1, OPEN19, Queues([], [], q[1..], [M12], [], [])))
  {
    assert ReceiveRoute(2, KNOWS1, 1, q[0].a, KNOWS1, false) by {
      assert Best(KNOWS1, 3) == None && 2 in [1, 2];
    }
    Node2Reads1(KNOWS23, KNOWS1, Queues([], [], q, [M12], [], []), KNOWS1, false);
    assert Wrap(Reaction(2, KNOWS1, q[0].a.recipient, false)) == [] && [M12] + [] == [M12];
  }

  lemma Node2ReadsTheRest()
    ensures DeliverStep(P20, E21, false, P21) && DeliverStep(P21, E21, false, P22)
    ensures DeliverStep(P22, E21, false, P23) && DeliverStep(P23, E21, false, P24)
  {
    Node2ReadsOn([M21, M312, M3W, M312]);
    Node2ReadsOn([M312, M3W, M312]);
    Node2ReadsOn([M3W, M312]);
    Node2ReadsOn([M312]);
    assert [M21, M312, M3W, M312][1..] == [M312, M3W, M312] && [M312, M3W, M312][1..] == [M3W, M312];
    assert [M3W, M312][1..] == [M312] && [M312][1..] == [];
  }

  lemma Node1ReadsOfItself()
    ensures DeliverStep(P24, E12, false, P25)
  {
    assert ReceiveRoute(1, KNOWS23, 2, Says(1, [2]), KNOWS23, false);
    Node1ReadsFirst(KNOWS23, KNOWS1, OPEN19, Queues([], [], [], [M12], [], []), KNOWS23, false);
    assert Wrap(Reaction(1, KNOWS23, 1, false)) == [] && [M12][1..] == [];
  }

  // Node 2 has learnt of node 3.
  lemma OneLink() returns (states: seq<Net>, steps: seq<Step>)
    ensures Run(NODES, states, steps) && states[|steps|] == P4 && forall x :: x in steps ==> ClosesProperly(x)
  {
    FirstSteps();
    states, steps := Extend([P0], [], Connect(E32, [Says(3, [])]), P1);
    states, steps := Extend(states, steps, Accept(E23), P2);
    Node2Answers3();
    states, steps := Extend(states, steps, Greet(E23, [Says(2, [])]), P3);
    Node2LearnsOf3();
    states, steps := Extend(states, steps, Deliver(E23, true), P4);
  }

  // Node 2 has told node 1 twice of its path to node 3, and twice that it has lost it.
  lemma TwoQueues() returns (states: seq<Net>, steps: seq<Step>)
    ensures Run(NODES, states, steps) && states[|steps|] == P9 && forall x :: x in steps ==> ClosesProperly(x)
  {
    states, steps := OneLink();
    LinksOnce();
    states, steps := Extend(states, steps, Connect(E21, [Says(2, []), Says(3, [2])]), P5);
    LinksTwice();
    states, steps := Extend(states, steps, Connect(F21, [Says(2, []), Says(3, [2])]), P6);
    Node2Loses3();
    states, steps := Extend(states, steps, Close(E23, [W3]), P7);
    Node1Accepts();
    states, steps := Extend(states, steps, Accept(E12), P8);
    states, steps := Extend(states, steps, Accept(F12), P9);
  }

  // Node 1 has closed the second connection.
  lemma OneRead() returns (states: seq<Net>, steps: seq<Step>)
    ensures Run(NODES, states, steps) && states[|steps|] == P17 && forall x :: x in steps ==> ClosesProperly(x)
  {
    states, steps := TwoQueues();
    Node1Answers();
    states, steps := Extend(states, steps, Greet(E12, [Says(1, [])]), P10);
    Node1AnswersAgain();
    states, steps := Extend(states, steps, Greet(F12, [Says(1, [])]), P11);
    Node1LearnsOf2();
    states, steps := Extend(states, steps, Deliver(E12, true), P12);
    Node1LearnsOf3();
    states, steps := Extend(states, steps, Deliver(E12, true), P13);
    Node1HearsOfTheLoss();
    states, steps := Extend(states, steps, Deliver(E12, true), P14);
    Node1ReadsOldNews();
    states, steps := Extend(states, steps, Deliver(F12, false), P15);
    Node1LearnsOf3Again();
    states, steps := Extend(states, steps, Deliver(F12, true), P16);
    Node1ClosesTheSecond();
    states, steps := Extend(states, steps, Close(F12, []), P17);
  }

  // The rest is closed and read.
  lemma AllRead() returns (states: seq<Net>, steps: seq<Step>)
    ensures Run(NODES, states, steps) && states[|steps|] == P25 && forall x :: x in steps ==> ClosesProperly(x)
  {
    states, steps := OneRead();
    Node2ClosesTheSecond();
    states, steps := Extend(states, steps, Close(F21, []), P18);
    Node3Closes();
    states, steps := Extend(states, steps, Close(E32, []), P19);
    Node2LearnsOf1();
    states, steps := Extend(states, steps, Deliver(E21, true), P20);
    Node2ReadsTheRest();
    states, steps := Extend(states, steps, Deliver(E21, false), P21);
    states, steps := Extend(states, steps, Deliver(E21, false), P22);
    states, steps := Extend(states, steps, Deliver(E21, false), P23);
    states, steps := Extend(states, steps, Deliver(E21, false), P24);
    Node1ReadsOfItself();
    states, steps := Extend(states, steps, Deliver(E12, false), P25);
  }

  lemma NothingLeadsThere(s: Net, w: seq<NodeId>, n: NodeId, r: NodeId)
    requires n != r && forall u :: !Adjacent(s, u, r)
    ensures !IsWalk(s, w, n, r)
  {
    if |w| > 1 {
      assert Adjacent(s, w[|w| - 2], w[|w| - 1]) ==> w[|w| - 1] != r;
    }
  }

  // In the end nothing is in flight, node 1 has a path to node 3 through node 2, and node 3 cannot be reached.
  lemma ParallelGhostRoute() returns (states: seq<Net>, steps: seq<Step>)
    ensures Run(NODES, states, steps) && forall x :: x in steps ==> ClosesProperly(x)
    ensures Quiet(states[|steps|]) && Best(Tab(states[|steps|], 1), 3) == Some(BestPath(2, [2]))
    ensures !exists w :: IsWalk(states[|steps|], w, 1, 3)
  {
    states, steps := AllRead();
    forall w ensures !IsWalk(P25, w, 1, 3) {
      NothingLeadsThere(P25, w, 1, 3);
    }
  }
}
