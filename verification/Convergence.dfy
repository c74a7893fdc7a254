/** When nothing is in flight every node uses shortest paths, and chat messages follow them. */
module Convergence {
  import opened Nodes
  import opened Wrappers
  import opened RoutingSpec
  import opened Network
  import opened LoopFreedom
  import opened Synchronization
  import opened Columns

  // Every connection is open at both ends and read to the end.
  ghost predicate Quiet(s: Net) {
    && (forall f :: f in s.open ==> Other(f) in s.open && Inbox(s, f) == [])
    && (forall f :: !Pending(s, f))
  }

  // `n` has an open connection to `u`.
  ghost predicate Adjacent(s: Net, n: NodeId, u: NodeId) {
    exists f :: Joins(f, u, n) && f in s.open
  }

  // A walk from `n` to `r` along open connections, both ends included.
  ghost predicate IsWalk(s: Net, w: seq<NodeId>, n: NodeId, r: NodeId) {
    && |w| > 0 && w[0] == n && w[|w| - 1] == r
    && forall i :: 0 <= i < |w| - 1 ==> Adjacent(s, w[i], w[i + 1])
  }

  // The path a node uses, from itself to the recipient, both included.
  function FullPath(s: Net, n: NodeId, r: NodeId): Option<seq<NodeId>> {
    if n == r then Some([n])
    else
      match Best(Tab(s, n), r)
      case None => None
      case Some(b) => Some([n] + b.path + [r])
  }

  ghost predicate Settled(nodes: set<NodeId>, s: Net) {
    LoopFree(nodes, s) && Synchronized(s) && ColumnsConnected(s) && Quiet(s)
  }

  lemma QuietEntry(nodes: set<NodeId>, s: Net, n: NodeId, u: NodeId, r: NodeId)
    requires Settled(nodes, s) && Adjacent(s, n, u) && r != n
    ensures Entry(Tab(s, n), r, u) == Clean(n, Payload(u, Tab(s, u), r))
  {
    var f :| Joins(f, u, n) && f in s.open;
    assert Other(f) in s.open && Inbox(s, Other(f)) == [];
    assert Linked(s, u, n) && Dumped(s, u, n);
    assert InStep(s, u, n, r);
  }

  // The path of a node is itself followed by the path of the node it forwards to.
  lemma OneHop(nodes: set<NodeId>, s: Net, n: NodeId, r: NodeId)
    requires Settled(nodes, s) && n != r && FullPath(s, n, r).Some?
    ensures var f := FullPath(s, n, r).value;
            && |f| > 1 && Chosen(Tab(s, n), r) == Some(f[1]) && Adjacent(s, n, f[1])
            && FullPath(s, f[1], r) == Some(f[1..])
  {
    var b := Best(Tab(s, n), r).value;
    var f := FullPath(s, n, r).value;
    assert Entry(Tab(s, n), r, b.via) == Some(b.path);
    assert GoodEntries(nodes, n, Tab(s, n));
    QuietEntry(nodes, s, n, b.via, r);
    assert f[1..] == b.path + [r];
    assert f[1] == b.via;
  }

  lemma {:induction false} PathIsWalk(nodes: set<NodeId>, s: Net, n: NodeId, r: NodeId)
    requires Settled(nodes, s) && FullPath(s, n, r).Some?
    ensures IsWalk(s, FullPath(s, n, r).value, n, r)
    decreases |FullPath(s, n, r).value|
  {
    if n != r {
      var f := FullPath(s, n, r).value;
      OneHop(nodes, s, n, r);
      PathIsWalk(nodes, s, f[1], r);
      forall i | 0 <= i < |f| - 1 ensures Adjacent(s, f[i], f[i + 1]) {
        if i > 0 {
          assert Adjacent(s, f[1..][i - 1], f[1..][i]);
        }
      }
    }
  }

  // Every node on a path in use itself uses the rest of that path.
  lemma {:induction false} SuffixIsOwnPath(nodes: set<NodeId>, s: Net, n: NodeId, r: NodeId, k: nat)
    requires Settled(nodes, s) && FullPath(s, n, r).Some? && k < |FullPath(s, n, r).value|
    ensures FullPath(s, FullPath(s, n, r).value[k], r) == Some(FullPath(s, n, r).value[k..])
    decreases k
  {
    var f := FullPath(s, n, r).value;
    if k > 0 {
      OneHop(nodes, s, n, r);
      SuffixIsOwnPath(nodes, s, f[1], r, k - 1);
      assert f[1..][k - 1..] == f[k..];
    }
  }

  lemma {:induction false} NoWalkIsShorter(nodes: set<NodeId>, s: Net, n: NodeId, r: NodeId, w: seq<NodeId>)
    requires Settled(nodes, s) && IsWalk(s, w, n, r)
    ensures FullPath(s, n, r).Some? && |FullPath(s, n, r).value| <= |w|
    decreases |w|
  {
    if n != r {
      var u, rest := w[1], w[1..];
      assert Adjacent(s, w[0], w[1]);
      forall i | 0 <= i < |rest| - 1 ensures Adjacent(s, rest[i], rest[i + 1]) {
        assert Adjacent(s, w[i + 1], w[i + 2]);
      }
      NoWalkIsShorter(nodes, s, u, r, rest);
      var g := FullPath(s, u, r).value;
      if k :| 0 <= k < |g| && g[k] == n {
        SuffixIsOwnPath(nodes, s, u, r, k);
      } else {
        QuietEntry(nodes, s, n, u, r);
        assert n !in g;
        assert Payload(u, Tab(s, u), r).Some? && Payload(u, Tab(s, u), r).value + [r] == g;
        assert Selected(Tab(s, n), Chosen(Tab(s, n), r), r);
      }
    }
  }

  // A node has a row for another exactly when the other can be reached, and its hop count is the distance minus one.
  lemma QuietMeansShortest(nodes: set<NodeId>, s: Net, n: NodeId, r: NodeId)
    requires Settled(nodes, s) && n != r
    ensures Best(Tab(s, n), r).Some? <==> exists w :: IsWalk(s, w, n, r)
    ensures Best(Tab(s, n), r).Some? ==>
              && IsWalk(s, [n] + Best(Tab(s, n), r).value.path + [r], n, r)
              && forall w :: IsWalk(s, w, n, r) ==> |Best(Tab(s, n), r).value.path| <= |w| - 2
  {
    if Best(Tab(s, n), r).Some? {
      PathIsWalk(nodes, s, n, r);
    }
    forall w | IsWalk(s, w, n, r)
      ensures Best(Tab(s, n), r).Some? && |Best(Tab(s, n), r).value.path| <= |w| - 2
    {
      NoWalkIsShorter(nodes, s, n, r, w);
    }
  }

  // The same for any state of any run in which nothing is in flight, if all its steps are orderly and harmless.
  lemma RunConvergesToShortest(nodes: set<NodeId>, states: seq<Net>, steps: seq<Step>, i: nat, n: NodeId, r: NodeId)
    requires Run(nodes, states, steps) && i < |states| && Quiet(states[i]) && n != r
    requires forall k :: 0 <= k < i ==> OrderlyAt(states, k) && HarmlessAt(states, steps, k)
    ensures Best(Tab(states[i], n), r).Some? <==> exists w :: IsWalk(states[i], w, n, r)
    ensures Best(Tab(states[i], n), r).Some? ==>
              && IsWalk(states[i], [n] + Best(Tab(states[i], n), r).value.path + [r], n, r)
              && forall w :: IsWalk(states[i], w, n, r) ==> |Best(Tab(states[i], n), r).value.path| <= |w| - 2
  {
    InitIsLoopFree(nodes, states[0]);
    StepsKeep(nodes, states, steps, i);
    StepsKeepColumns(nodes, states, steps, i);
    QuietMeansShortest(nodes, states[i], n, r);
  }

  // The nodes a chat message for `r` visits when every node hands it on with forward_message, at most `sends` times.
  function Visited(s: Net, n: NodeId, r: NodeId, sends: nat): seq<NodeId>
    decreases sends
  {
    if n == r || sends == 0 then [n]
    else
      match Chosen(Tab(s, n), r)
      case None => [n]
      case Some(u) => [n] + Visited(s, u, r, sends - 1)
  }

  // The message visits exactly the nodes of the sender's path and needs one send more than its hop count.
  lemma {:induction false} ChatFollowsPath(nodes: set<NodeId>, s: Net, n: NodeId, r: NodeId, sends: nat)
    requires Settled(nodes, s) && FullPath(s, n, r).Some?
    ensures var f := FullPath(s, n, r).value;
            && (sends >= |f| - 1 ==> Visited(s, n, r, sends) == f)
            && (sends < |f| - 1 ==> Visited(s, n, r, sends) == f[..sends + 1] && r !in Visited(s, n, r, sends))
    decreases sends
  {
    var f := FullPath(s, n, r).value;
    if n != r && sends > 0 {
      OneHop(nodes, s, n, r);
      ChatFollowsPath(nodes, s, f[1], r, sends - 1);
      assert sends < |f| - 1 ==> [n] + f[1..][..sends] == f[..sends + 1];
    }
  }
}
