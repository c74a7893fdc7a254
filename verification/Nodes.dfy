/** Node IDs, lists of them, and flags. */
module Nodes {
  type NodeId = int

  ghost predicate NoDup<T>(ids: seq<T>) {
    forall i, j :: 0 <= i < j < |ids| ==> ids[i] != ids[j]
  }

  function Bit(b: bool): nat {
    if b then 1 else 0
  }

  lemma {:induction false} NoDupCount(p: seq<NodeId>, nodes: set<NodeId>)
    requires NoDup(p) && forall x :: x in p ==> x in nodes
    ensures |p| <= |nodes|
  {
    if p != [] {
      var last := p[|p| - 1];
      assert last in p;
      NoDupCount(p[..|p| - 1], nodes - {last});
      assert |nodes - {last}| == |nodes| - 1;
    }
  }
}
