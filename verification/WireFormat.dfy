/** Every message that a run of the network puts on a connection can be printed within the buffers and read back. */
module WireFormat {
  import opened Nodes
  import opened Wrappers
  import opened RoutingSpec
  import opened Network
  import opened LoopFreedom
  import RouteText

  lemma MessagesArePrintable(nodes: set<NodeId>, states: seq<Net>, steps: seq<Step>, i: nat, f: End,
                             a: Announcement)
    requires Run(nodes, states, steps) && i < |states|
    requires |nodes| <= RouteText.MAX_NODES && forall x :: x in nodes ==> RouteText.IsId(x)
    requires RouteMsg(a) in Inbox(states[i], f)
    ensures RouteText.Printable(f.peer, a)
    ensures |RouteText.RouteLine(f.peer, a)| <= 12 + RouteText.MAX_PATH_STR_LENGTH
  {
    RunIsLoopFree(nodes, states, steps, i);
    PathsAreShort(nodes, states[i]);
    assert GoodInbox(nodes, states[i], f);
    RouteText.RouteLineFields(f.peer, a);
  }
}
