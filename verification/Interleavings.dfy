/** What a node holds in the end when it reads several queues of messages in any order.

    Messages on one connection stay in order; those of different connections may be read in any.  Being in step is
    exactly what makes the outcome independent of that. */
module Interleavings {
  import opened Nodes
  import opened Wrappers
  import opened RoutingSpec
  import opened Network
  import opened Synchronization

  // The entry for `r` that node `n` ends up with after reading `q`, starting from `e`.
  function Drain(n: NodeId, q: seq<Message>, r: NodeId, e: Option<Path>): Option<Path> {
    if q == [] then e
    else Drain(n, q[1..], r, if q[0].RouteMsg? && q[0].a.recipient == r then Clean(n, q[0].a.path) else e)
  }

  // `w` is an interleaving of the queues.
  ghost predicate Merges(qs: seq<seq<Message>>, w: seq<Message>)
    decreases |w|
  {
    if w == [] then forall k :: 0 <= k < |qs| ==> qs[k] == []
    else exists k :: 0 <= k < |qs| && Reads(qs, k, w[0]) && Merges(qs[k := qs[k][1..]], w[1..])
  }

  predicate Reads(qs: seq<seq<Message>>, k: nat, m: Message)
    requires k < |qs|
  {
    qs[k] != [] && qs[k][0] == m
  }

  predicate SaysLast(n: NodeId, q: seq<Message>, r: NodeId, d: Option<Path>) {
    LastWord(q, r).Some? ==> Clean(n, LastWord(q, r).value) == d
  }

  predicate Silent(q: seq<Message>, r: NodeId) {
    LastWord(q, r).None?
  }

  ghost predicate AllSayLast(n: NodeId, qs: seq<seq<Message>>, r: NodeId, d: Option<Path>) {
    forall k :: 0 <= k < |qs| ==> SaysLast(n, qs[k], r, d)
  }

  ghost predicate AllSilent(qs: seq<seq<Message>>, r: NodeId) {
    forall k :: 0 <= k < |qs| ==> Silent(qs[k], r)
  }

  lemma {:induction false} DrainIsLastWord(n: NodeId, q: seq<Message>, r: NodeId, e: Option<Path>)
    ensures Drain(n, q, r, e) == if LastWord(q, r).Some? then Clean(n, LastWord(q, r).value) else e
    decreases |q|
  {
    if q != [] {
      LastWordTail(q, r);
      DrainIsLastWord(n, q[1..], r, if q[0].RouteMsg? && q[0].a.recipient == r then Clean(n, q[0].a.path) else e);
    }
  }

  // One message is read from queue `k`.
  lemma ReadOne(n: NodeId, qs: seq<seq<Message>>, k: nat, m: Message, r: NodeId, e: Option<Path>, d: Option<Path>)
    requires k < |qs| && Reads(qs, k, m) && AllSayLast(n, qs, r, d) && (AllSilent(qs, r) ==> e == d)
    ensures AllSayLast(n, qs[k := qs[k][1..]], r, d)
    ensures AllSilent(qs[k := qs[k][1..]], r) ==>
              (if m.RouteMsg? && m.a.recipient == r then Clean(n, m.a.path) else e) == d
  {
    var qs' := qs[k := qs[k][1..]];
    LastWordTail(qs[k], r);
    forall j | 0 <= j < |qs'| ensures SaysLast(n, qs'[j], r, d) {
      assert SaysLast(n, qs[j], r, d);
    }
    if AllSilent(qs', r) {
      assert Silent(qs'[k], r) && SaysLast(n, qs[k], r, d);
      if !(m.RouteMsg? && m.a.recipient == r) {
        forall j | 0 <= j < |qs| ensures Silent(qs[j], r) {
          assert Silent(qs'[j], r);
        }
      }
    }
  }

  lemma {:induction false} EveryOrderEndsWith(n: NodeId, qs: seq<seq<Message>>, w: seq<Message>, r: NodeId,
                                              e: Option<Path>,
                                              d: Option<Path>)
    requires Merges(qs, w) && AllSayLast(n, qs, r, d) && (AllSilent(qs, r) ==> e == d)
    ensures Drain(n, w, r, e) == d
    decreases |w|
  {
    if w == [] {
      forall k | 0 <= k < |qs| ensures Silent(qs[k], r) {
        assert qs[k] == [];
      }
    } else {
      var k :| 0 <= k < |qs| && Reads(qs, k, w[0]) && Merges(qs[k := qs[k][1..]], w[1..]);
      ReadOne(n, qs, k, w[0], r, e, d);
      EveryOrderEndsWith(n, qs[k := qs[k][1..]], w[1..], r,
                         if w[0].RouteMsg? && w[0].a.recipient == r then Clean(n, w[0].a.path) else e, d);
    }
  }

  // Queue `k` may be read after all others.
  lemma {:induction false} OneQueue(qs: seq<seq<Message>>, k: nat)
    requires k < |qs| && forall j :: 0 <= j < |qs| && j != k ==> qs[j] == []
    ensures Merges(qs, qs[k])
    decreases |qs[k]|
  {
    if qs[k] != [] {
      OneQueue(qs[k := qs[k][1..]], k);
      assert Reads(qs, k, qs[k][0]);
    }
  }

  lemma {:induction false} ReadLast(qs: seq<seq<Message>>, k: nat, w: seq<Message>)
    requires k < |qs| && Merges(qs[k := []], w)
    ensures Merges(qs, w + qs[k])
    decreases |w|
  {
    var rest := qs[k := []];
    if w == [] {
      forall j | 0 <= j < |qs| && j != k ensures qs[j] == [] {
        assert rest[j] == [];
      }
      OneQueue(qs, k);
      assert w + qs[k] == qs[k];
    } else {
      var j :| 0 <= j < |rest| && Reads(rest, j, w[0]) && Merges(rest[j := rest[j][1..]], w[1..]);
      var qs' := qs[j := qs[j][1..]];
      assert rest[j := rest[j][1..]] == qs'[k := []];
      ReadLast(qs', k, w[1..]);
      assert (w + qs[k])[1..] == w[1..] + qs'[k] && Reads(qs, j, (w + qs[k])[0]);
    }
  }

  // Some order always exists: one queue after the other.
  lemma {:induction false} SomeOrder(qs: seq<seq<Message>>, k: nat) returns (w: seq<Message>)
    requires k <= |qs| && forall j :: 0 <= j < k ==> qs[j] == []
    ensures Merges(qs, w)
    decreases |qs| - k
  {
    w := [];
    if k < |qs| {
      var front := SomeOrder(qs[k := []], k + 1);
      ReadLast(qs, k, front);
      w := front + qs[k];
    }
  }

  lemma LastQueueDecides(n: NodeId, qs: seq<seq<Message>>, k: nat, r: NodeId, e: Option<Path>) returns (w: seq<Message>)
    requires k < |qs| && LastWord(qs[k], r).Some?
    ensures Merges(qs, w) && Drain(n, w, r, e) == Clean(n, LastWord(qs[k], r).value)
  {
    var front := SomeOrder(qs[k := []], 0);
    ReadLast(qs, k, front);
    w := front + qs[k];
    LastWordAppend(front, qs[k], r);
    DrainIsLastWord(n, w, r, e);
  }

  ghost predicate EveryOrderGives(n: NodeId, qs: seq<seq<Message>>, r: NodeId, e: Option<Path>, d: Option<Path>) {
    forall w :: Merges(qs, w) ==> Drain(n, w, r, e) == d
  }

  // Every order of reading ends with `d` exactly when every queue that mentions `r` ends with it, and if there is none
  // it is what the node holds already.
  lemma EveryOrderExactlyWhen(n: NodeId, qs: seq<seq<Message>>, r: NodeId, e: Option<Path>, d: Option<Path>)
    ensures EveryOrderGives(n, qs, r, e, d) <==> AllSayLast(n, qs, r, d) && (AllSilent(qs, r) ==> e == d)
  {
    if AllSayLast(n, qs, r, d) && (AllSilent(qs, r) ==> e == d) {
      forall w | Merges(qs, w) ensures Drain(n, w, r, e) == d {
        EveryOrderEndsWith(n, qs, w, r, e, d);
      }
    }
    if EveryOrderGives(n, qs, r, e, d) {
      forall k | 0 <= k < |qs| ensures SaysLast(n, qs[k], r, d) {
        if LastWord(qs[k], r).Some? {
          var w := LastQueueDecides(n, qs, k, r, e);
        }
      }
      if AllSilent(qs, r) {
        var w := SomeOrder(qs, 0);
        EveryOrderEndsWith(n, qs, w, r, e, e) by {
          assert forall k :: 0 <= k < |qs| ==> SaysLast(n, qs[k], r, e);
        }
      }
    }
  }

  // The ends at which `n` reads what `u` writes, and what is unread there.
  ghost predicate Ends(s: Net, u: NodeId, n: NodeId, fs: seq<End>) {
    forall f :: f in fs <==> Joins(f, u, n) && Readable(s, f)
  }

  function Queues(s: Net, fs: seq<End>): seq<seq<Message>> {
    seq(|fs|, i requires 0 <= i < |fs| => Inbox(s, fs[i]))
  }

  // Once `u` has written its table to `n` they are in step about `r` exactly when, in whatever order `n` reads its
  // connections to `u`, it ends up with what `u` uses now.
  lemma InStepIsEveryOrder(s: Net, u: NodeId, n: NodeId, r: NodeId, fs: seq<End>)
    requires Ends(s, u, n, fs) && Dumped(s, u, n)
    ensures InStep(s, u, n, r) <==> EveryOrderGives(n, Queues(s, fs), r, Entry(Tab(s, n), r, u), Due(s, u, n, r))
  {
    var qs := Queues(s, fs);
    EveryOrderExactlyWhen(n, qs, r, Entry(Tab(s, n), r, u), Due(s, u, n, r));
    assert Unmentioned(s, u, n, r) <==> AllSilent(qs, r) by {
      forall k | 0 <= k < |fs| ensures Silent(qs[k], r) <==> !Mentions(s, fs[k], r) {
        assert fs[k] in fs;
      }
      assert forall f :: f in fs ==> exists k :: 0 <= k < |fs| && fs[k] == f;
    }
    assert (forall f :: Joins(f, u, n) ==> SaysDue(s, f, r)) <==> AllSayLast(n, qs, r, Due(s, u, n, r)) by {
      forall k | 0 <= k < |fs| ensures SaysLast(n, qs[k], r, Due(s, u, n, r)) <==> SaysDue(s, fs[k], r) {
        assert fs[k] in fs;
      }
      assert forall f :: f in fs ==> exists k :: 0 <= k < |fs| && fs[k] == f;
    }
  }
}
