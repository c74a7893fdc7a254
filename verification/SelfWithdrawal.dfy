/** ring.c:248-251 calls it impossible that a neighbour says it has no path to us.  It is not: node 0 knows node 1
    through node 2 only, accepts node 1's connection, and before it has read anything from node 1 it loses node 2, or
    node 2 tells it that it has lost node 1. */
module SelfWithdrawal {
  import opened Nodes
  import opened Wrappers
  import opened RoutingSpec
  import opened Network

  const KNOWS1 := Table(map[(1, 1) := []], map[1 := 1])
  const KNOWS2 := Table(map[(2, 2) := []], map[2 := 2])
  const KNOWS12 := Table(map[(2, 2) := [], (1, 2) := [2]], map[2 := 2, 1 := 2])

  const E12 := End(1, 2, 0)
  const E21 := End(2, 1, 0)
  const E20 := End(2, 0, 0)
  const E02 := End(0, 2, 0)
  const E10 := End(1, 0, 0)
  const E01 := End(0, 1, 0)

  // The network after each step: the tables of nodes 0 and 2, the open ends and what is unread.
  function At(t0: Table, t2: Table, open: set<End>, c12: seq<Message>, c21: seq<Message>, c20: seq<Message>,
              c02: seq<Message>, c10: seq<Message>, c01: seq<Message>): Net {
    Net(map[0 := t0, 2 := t2], open,
        map[E21 := c12, E12 := c21, E02 := c20, E20 := c02, E01 := c10, E10 := c01])
  }

  const OPEN1 := {E12}
  const OPEN2 := {E12, E21}
  const OPEN3 := {E12, E21, E20}
  const OPEN4 := {E12, E21, E20, E02}
  const OPEN5 := {E12, E21, E20, E02, E10}
  const OPEN6 := {E12, E21, E20, E02, E10, E01}
  const OPEN7 := {E12, E21, E20, E10, E01}

  const R1 := RouteMsg(Says(1, []))
  const R2 := RouteMsg(Says(2, []))
  const R0 := RouteMsg(Says(0, []))
  const R12 := RouteMsg(Says(1, [2]))
  const R20 := RouteMsg(Says(2, [0]))
  const R102 := RouteMsg(Says(1, [0, 2]))
  const W1 := Announcement(1, None)
  const W2 := Announcement(2, None)

  const S0 := At(EMPTY_TABLE, EMPTY_TABLE, {}, [], [], [], [], [], [])
  const S1 := At(EMPTY_TABLE, EMPTY_TABLE, OPEN1, [Hello, R1], [], [], [], [], [])
  const S2 := At(EMPTY_TABLE, EMPTY_TABLE, OPEN2, [Hello, R1], [], [], [], [], [])
  const S3 := At(EMPTY_TABLE, EMPTY_TABLE, OPEN2, [R1], [R2], [], [], [], [])
  const S4 := At(EMPTY_TABLE, KNOWS1, OPEN2, [], [R2, R12], [], [], [], [])
  const S5 := At(EMPTY_TABLE, KNOWS1, OPEN3, [], [R2, R12], [Hello, R2, R12], [], [], [])
  const S6 := At(EMPTY_TABLE, KNOWS1, OPEN4, [], [R2, R12], [Hello, R2, R12], [], [], [])
  const S7 := At(EMPTY_TABLE, KNOWS1, OPEN4, [], [R2, R12], [R2, R12], [R0], [], [])
  const S8 := At(KNOWS2, KNOWS1, OPEN4, [], [R2, R12], [R12], [R0, R20], [], [])
  const S9 := At(KNOWS12, KNOWS1, OPEN4, [], [R2, R12], [], [R0, R20, R102], [], [])
  const S10 := At(KNOWS12, KNOWS1, OPEN5, [], [R2, R12], [], [R0, R20, R102], [Hello, R1], [])
  const S11 := At(KNOWS12, KNOWS1, OPEN6, [], [R2, R12], [], [R0, R20, R102], [Hello, R1], [])
  const S12 := At(EMPTY_TABLE, KNOWS1, OPEN7, [], [R2, R12], [], [R0, R20, R102], [Hello, R1],
                  [RouteMsg(W2), RouteMsg(W1)])

  // Or else, after S11: node 2 loses node 1 and tells node 0.
  const OPEN8 := {E12, E20, E02, E10, E01}
  const T12 := At(KNOWS12, EMPTY_TABLE, OPEN8, [], [R2, R12], [RouteMsg(W1)], [R0, R20, R102], [Hello, R1], [])
  const T13 := At(KNOWS2, EMPTY_TABLE, OPEN8, [], [R2, R12], [], [R0, R20, R102, RouteMsg(W1)], [Hello, R1],
                  [RouteMsg(W1)])

  const NODES: set<NodeId> := {0, 1, 2}

  lemma Links12()
    ensures Init(S0) && ConnectStep(NODES, S0, E12, [Says(1, [])], S1)
  {
  }

  lemma Node2Answers1()
    ensures AcceptStep(S1, E21, S2) && GreetStep(S2, E21, [Says(2, [])], S3)
  {
  }

  lemma Node2Says()
    ensures Payload(2, KNOWS1, 1) == Some([2])
  {
    assert [2] + [] == [2];
  }

  lemma Node2LearnsOf1()
    ensures DeliverStep(S3, E21, true, S4)
  {
    Node2Says();
    assert Best(KNOWS1, 1) == Some(BestPath(1, []));
    assert Wrap(Reaction(2, KNOWS1, 1, true)) == [R12];
  }

  lemma Links20()
    ensures ConnectStep(NODES, S4, E20, [Says(2, []), Says(1, [2])], S5)
  {
    Node2Says();
    var out := [Says(2, []), Says(1, [2])];
    assert Wrap(out) == [R2, R12] && out[0] in out && out[1] in out;
    assert Dump(2, KNOWS1, out);
  }

  lemma Node0Answers2()
    ensures AcceptStep(S5, E02, S6) && GreetStep(S6, E02, [Says(0, [])], S7)
  {
    assert Wrap([Says(0, [])]) == [R0];
  }

  // Node 0 reads a message from node 2.
  lemma Node0Reads(t0: Table, t2: Table, open: set<End>, c12: seq<Message>, c21: seq<Message>, c20: seq<Message>,
                   c02: seq<Message>, c10: seq<Message>, c01: seq<Message>, t0': Table, changed: bool)
    requires {E02} <= open <= OPEN6 && c20 != [] && c20[0].RouteMsg? && ReceiveRoute(0, t0, 2, c20[0].a, t0', changed)
    ensures var w := Wrap(Reaction(0, t0', c20[0].a.recipient, changed));
            DeliverStep(At(t0, t2, open, c12, c21, c20, c02, c10, c01), E02, changed,
                        At(t0', t2, open, c12, c21, c20[1..], c02 + w, c10, if E01 in open then c01 + w else c01))
  {
  }

  lemma Takes2()
    ensures ReceiveRoute(0, EMPTY_TABLE, 2, Says(2, []), KNOWS2, true)
    ensures Wrap(Reaction(0, KNOWS2, 2, true)) == [R20]
  {
    assert Best(KNOWS2, 2) == Some(BestPath(2, []));
    assert [0] + [] == [0];
  }

  lemma Node0LearnsOf2()
    ensures DeliverStep(S7, E02, true, S8)
  {
    Takes2();
    Node0Reads(EMPTY_TABLE, KNOWS1, OPEN4, [], [R2, R12], [R2, R12], [R0], [], [], KNOWS2, true);
    assert [R2, R12][1..] == [R12] && [R0] + [R20] == [R0, R20];
  }

  lemma Takes12()
    ensures ReceiveRoute(0, KNOWS2, 2, Says(1, [2]), KNOWS12, true)
    ensures Wrap(Reaction(0, KNOWS12, 1, true)) == [R102]
  {
    assert Best(KNOWS12, 1) == Some(BestPath(2, [2]));
    assert [0] + [2] == [0, 2];
  }

  lemma Node0LearnsOf1()
    ensures DeliverStep(S8, E02, true, S9)
  {
    Takes12();
    Node0Reads(KNOWS2, KNOWS1, OPEN4, [], [R2, R12], [R12], [R0, R20], [], [], KNOWS12, true);
    assert [R12][1..] == [] && [R0, R20] + [R102] == [R0, R20, R102];
  }

  lemma Links10()
    ensures ConnectStep(NODES, S9, E10, [Says(1, [])], S10) && AcceptStep(S10, E01, S11)
  {
  }

  lemma Node0Closes(t2: Table, c12: seq<Message>, c21: seq<Message>, c20: seq<Message>, c02: seq<Message>,
                    c10: seq<Message>, c01: seq<Message>)
    requires c20 == [] && Removal(0, KNOWS12, 2, EMPTY_TABLE, [W2, W1])
    ensures CloseStep(At(KNOWS12, t2, OPEN6, c12, c21, c20, c02, c10, c01), E02, [W2, W1],
                      At(EMPTY_TABLE, t2, OPEN7, c12, c21, [], c02, c10, c01 + Wrap([W2, W1])))
  {
  }

  lemma Removes2()
    ensures Removal(0, KNOWS12, 2, EMPTY_TABLE, [W2, W1])
    ensures Wrap([W2, W1]) == [RouteMsg(W2), RouteMsg(W1)]
  {
    assert Best(KNOWS12, 1) == Some(BestPath(2, [2])) && Best(KNOWS12, 2) == Some(BestPath(2, []));
    assert [W2, W1][0] == W2 && [W2, W1][1] == W1;
  }

  lemma Node0Loses2()
    ensures CloseStep(S11, E02, [W2, W1], S12)
  {
    Removes2();
    Node0Closes(KNOWS1, [], [R2, R12], [], [R0, R20, R102], [Hello, R1], []);
    assert [] + [RouteMsg(W2), RouteMsg(W1)] == [RouteMsg(W2), RouteMsg(W1)];
  }

  predicate ClosesAt(steps: seq<Step>, i: nat, n: NodeId)
    requires i < |steps|
  {
    steps[i].Close? && steps[i].e.node == n
  }

  ghost predicate ClosesNothing(steps: seq<Step>, n: NodeId) {
    forall i :: 0 <= i < |steps| ==> !ClosesAt(steps, i, n)
  }

  lemma OneMoreStep(steps: seq<Step>, step: Step, n: NodeId)
    ensures ClosesNothing(steps, n) && !(step.Close? && step.e.node == n) ==> ClosesNothing(steps + [step], n)
  {
    assert forall i :: 0 <= i < |steps| ==> ClosesAt(steps + [step], i, n) == ClosesAt(steps, i, n);
  }

  lemma Extend(states: seq<Net>, steps: seq<Step>, step: Step, s': Net) returns (states': seq<Net>, steps': seq<Step>)
    requires Run(NODES, states, steps) && Next(NODES, states[|steps|], step, s')
    ensures Run(NODES, states', steps') && states'[|steps'|] == s'
    ensures ClosesNothing(steps, 0) && (step.Close? ==> step.e.node != 0) ==> ClosesNothing(steps', 0)
  {
    states', steps' := states + [s'], steps + [step];
    RunExtends(NODES, states, steps, step, s');
    OneMoreStep(steps, step, 0);
  }

  lemma Removes1()
    ensures Removal(2, KNOWS1, 1, EMPTY_TABLE, [W1]) && Wrap([W1]) == [RouteMsg(W1)]
  {
    assert Best(KNOWS1, 1) == Some(BestPath(1, [])) && Best(EMPTY_TABLE, 1) == None;
    assert [W1][0] == W1;
  }

  lemma Node2Loses1()
    ensures CloseStep(S11, E21, [W1], T12)
  {
    Removes1();
  }

  lemma Drops12()
    ensures ReceiveRoute(0, KNOWS12, 2, W1, KNOWS2, true)
    ensures Wrap(Reaction(0, KNOWS2, 1, true)) == [RouteMsg(W1)]
  {
    assert Best(KNOWS12, 1) == Some(BestPath(2, [2])) && Best(KNOWS2, 1) == None;
  }

  lemma Node0Hears()
    ensures DeliverStep(T12, E02, true, T13)
  {
    Drops12();
    Node0Reads(KNOWS12, EMPTY_TABLE, OPEN8, [], [R2, R12], [RouteMsg(W1)], [R0, R20, R102], [Hello, R1], [], KNOWS2,
               true);
    assert [R0, R20, R102] + [RouteMsg(W1)] == [R0, R20, R102, RouteMsg(W1)] && [RouteMsg(W1)][1..] == [];
    assert [] + [RouteMsg(W1)] == [RouteMsg(W1)];
  }

  // Node 2 learns of node 1.
  lemma FirstLink() returns (states: seq<Net>, steps: seq<Step>)
    ensures Run(NODES, states, steps) && states[|steps|] == S4 && ClosesNothing(steps, 0)
  {
    Links12();
    states, steps := Extend([S0], [], Connect(E12, [Says(1, [])]), S1);
    Node2Answers1();
    states, steps := Extend(states, steps, Accept(E21), S2);
    states, steps := Extend(states, steps, Greet(E21, [Says(2, [])]), S3);
    Node2LearnsOf1();
    states, steps := Extend(states, steps, Deliver(E21, true), S4);
  }

  // Node 0 learns of node 1 from node 2.
  lemma SecondLink() returns (states: seq<Net>, steps: seq<Step>)
    ensures Run(NODES, states, steps) && states[|steps|] == S9 && ClosesNothing(steps, 0)
  {
    states, steps := FirstLink();
    Links20();
    states, steps := Extend(states, steps, Connect(E20, [Says(2, []), Says(1, [2])]), S5);
    Node0Answers2();
    states, steps := Extend(states, steps, Accept(E02), S6);
    states, steps := Extend(states, steps, Greet(E02, [Says(0, [])]), S7);
    Node0LearnsOf2();
    states, steps := Extend(states, steps, Deliver(E02, true), S8);
    Node0LearnsOf1();
    states, steps := Extend(states, steps, Deliver(E02, true), S9);
  }

  // Node 0 accepts node 1's connection.
  lemma ThirdLink() returns (states: seq<Net>, steps: seq<Step>)
    ensures Run(NODES, states, steps) && states[|steps|] == S11 && ClosesNothing(steps, 0)
  {
    states, steps := SecondLink();
    Links10();
    states, steps := Extend(states, steps, Connect(E10, [Says(1, [])]), S10);
    states, steps := Extend(states, steps, Accept(E01), S11);
  }

  // A run in which node 0 tells node 1, to which it is connected, that it has no path to it.
  lemma NeighborCanWithdrawUs() returns (states: seq<Net>, steps: seq<Step>)
    ensures Run(NODES, states, steps)
    ensures RouteMsg(Announcement(1, None)) in Inbox(states[|steps|], E10)
    ensures E01 in states[|steps|].open && E10 in states[|steps|].open
  {
    states, steps := ThirdLink();
    Node0Loses2();
    states, steps := Extend(states, steps, Close(E02, [W2, W1]), S12);
  }

  // And one in which node 0 does so without having closed any connection.
  lemma NeighborCanPassOnWithdrawal() returns (states: seq<Net>, steps: seq<Step>)
    ensures Run(NODES, states, steps) && ClosesNothing(steps, 0)
    ensures RouteMsg(Announcement(1, None)) in Inbox(states[|steps|], E10)
    ensures E01 in states[|steps|].open && E10 in states[|steps|].open
  {
    states, steps := ThirdLink();
    Node2Loses1();
    states, steps := Extend(states, steps, Close(E21, [W1]), T12);
    Node0Hears();
    states, steps := Extend(states, steps, Deliver(E02, true), T13);
  }
}
