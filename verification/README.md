# Verification of the ring chat node

Each node of the program keeps a place in a ring of nodes (`ring.c`), finds paths to all other nodes with a
path-vector protocol (`routing.c`), and reads and writes text lines on its connections (`read-lines.c`,
`connections.c`).  This project models those four files and proves what they promise, for one node and for whole
networks.

`dafny verify dfyconfig.toml` checks everything.

## Layout

One node:

- `RoutingSpec`, `RoutingTable`: the routing table as a map from (recipient, neighbour) to path with a chosen
  neighbour per recipient, and the slot arrays of `routing.c` updated in place, proved to represent such a table
  whatever slots were allocated and freed before.
- `RouteText`: the ROUTE message printed and parsed.
- `ReadLines`: the line framer over its buffer.
- `Connections`, `NeighborAgreement`: the connection pool with its role pointers, and how it agrees with the columns
  of the routing table.
- `ConnectionLife`: the same events seen from one connection: which role it plays next, and whether its column stays.
- `Ring`, `RingNode`: the ring handlers as functions from a node and a message to the node and what it sends, opens
  and closes; and the same handlers on mutable fields, proved to do what the functions say.
- `RingLaws`: what all these handlers have in common: what is closed, dialed and said, when the timeout runs, when a
  node leaves, who follows whom.

Many nodes:

- `Network`: nodes that run `routing.c`, joined by first-in first-out channels.  Two nodes may have any number of
  connections.  A connection is opened by one end, accepted and greeted by the other, and closed by each end by
  itself, with the column removed or left behind as `ring.c` does; steps of all nodes interleave freely.  The node
  step is the contract of `RoutingTable`.
- `LoopFreedom`: what holds in every state of every run, whatever is closed and however.
- `Synchronization`, `Interleavings`: whether a node has, or has still to read, what its neighbour uses now, in
  whatever order it reads its connections; and exactly which steps keep it so.
- `Columns`: whether a node holds paths only from nodes it is connected to, and exactly which steps keep it so.
- `Convergence`: with both of these, when nothing is unread all paths in use are shortest, and chat messages follow
  them.
- `Openings`, `SoleConnections`: two kinds of runs in which all steps are orderly: those that close nothing, and those
  in which no two nodes have two connections at a time.
- `StaleColumns`, `ParallelGhost`: routes that stay although nothing supports them, and when they can arise.
- `Termination`, `Progress`: without further openings the network does get quiet.
- `Announcements`: how often a best path can change while connections only come up.
- `DirectNeighbors`, `SelfWithdrawal`: what a node may believe about a node it is connected to.
- `WireFormat`: the messages of every run fit the buffers of `routing.c` and `ring.c`.
- `RingJoin`, `RingDeparture`: a node joins a settled ring, or disappears from one, under every interleaving.
- `RingEnds`, `RingNames`: when one end of a connection is closed the other hears of it, in every run of the ring, and
  in joins and repairs without further conditions.

`RoleMoves` relates the ring handlers of `Ring` to the events of `NeighborAgreement`.  `Nodes`, `Wrappers` and `Sums`
hold node IDs, an option type, and sums over sets.

## Where the code departs from what it intends

The model follows the code.  For each of these one lemma shows an input on which the intent is missed, and another
says exactly when it is met.

- `read-lines.c:17` searches for newlines among as many bytes as were just read, counted from the start of the buffer,
  and so leaves out as many bytes as were in the buffer before.  A complete line can stay behind until more bytes come
  (`ReadLines.DelayedLine`, `ReadLines.NothingLeftBehindExactlyWhen`), and a line that fits the buffer can be
  discarded as an overflow, together with others (`ReadLines.DiscardedLine`, `ReadLines.LineDiscardedExactlyWhen`),
  although `read-lines.h:11` reserves overflows for lines that are bigger than the buffer.  What is always true is
  `ReadLines.EveryByteAccountedFor`; the lines handed over are the first lines of the stream as long as no call has
  overflowed (`ReadLines.LinesAreAPrefix`).  With all bytes searched the lines would not depend on how the stream is
  cut into pieces (`ReadLines.SearchingAllIsExact`).
- `ring.c:209` switches off the check of the length of a received path.  `RouteText.LongPathOverruns` is a path string
  of 33 characters, which the string buffer has room for, that is written behind the end of `path.nodes`;
  `RouteText.OverrunExactlyWhen` and `RouteText.FitsExactlyWhen` say which strings are and which are not.  Nodes that
  run this program do not send such a string in any run (`WireFormat.MessagesArePrintable`, `RouteText.ReadRoute`).
  The check, switched on, would protect the array but not the buffer in which a node announces the path it has taken
  over: `RouteText.PassedOnFitsExactlyWhen`, `RouteText.LongPathIsAccepted`.
- `ring.c:456-459` closes the connection of the old predecessor when a new one introduces itself, but does not remove
  its column from the routing table: `NeighborAgreement.PredCanBreakAgreement`,
  `NeighborAgreement.PredKeepsAgreementExactlyWhen`.  This happens in the repair of the ring when the new
  predecessor's PRED message is read before the end of the old connection (`RingDeparture.PredCanComeFirst`).
- `ring.c:80-92`, leaving the ring, closes all connections and removes no column.  `join_ring` clears the table, but
  `main.c:118-125`, a direct join to oneself, does not: `NeighborAgreement.RejoiningCanBreakAgreement`,
  `NeighborAgreement.LeaveRingAgreesExactlyWhen`, `NeighborAgreement.RejoiningAgreesExactlyWhen`.  In a fresh process,
  where the ID arrays hold zeros, there is then room for no node but node 0
  (`RoutingTable.WithoutInitOnlyNodeZeroFits`).
- `ring.c:162-167`, and `main.c:150` for a chord, remove no column while another connection to the same node is open;
  but what was unread on the connection that is closed is lost.  A ring of two always has two connections between its
  nodes (`ring.c:399-427`), and a ring of three that becomes one of two gets them.  `ParallelGhost.ParallelGhostRoute`
  is a run in which every connection is closed with `remove_neighbor_connection` and a node keeps a path to one it
  cannot reach. `Synchronization.ClosingOneOfSeveralExactlyWhen` says when such a close does no harm, and
  `Synchronization.SynchronizedExactlyWhen` the same for every kind of step.
- What the two closes without removal mean for the network is in `StaleColumns`.  `StaleColumns.GhostRoute` is a run
  after which nothing is in flight and a node still has a path to one it cannot reach.
  `StaleColumns.NoGhostsExactlyWhen`: closing without removal, or leaving without clearing, leaves no ghost in any
  continuation exactly when another connection is known or there is no entry in the columns left behind.  With
  `Columns.HarmlessExactlyWhen` and `Synchronization.SynchronizedExactlyWhen` a run whose steps all are orderly and
  harmless converges (`Convergence.RunConvergesToShortest`).
- Best paths only get shorter while connections only come up, but not if two nodes have two of them:
  `Announcements.SecondConnectionLengthens`, `Announcements.DeliveryIsBetterExactlyWhen`.
- `ring.c:248-251` calls it impossible that a neighbour says it has no path to us.
  `SelfWithdrawal.NeighborCanWithdrawUs` and `SelfWithdrawal.NeighborCanPassOnWithdrawal` are runs in which it does,
  with and without closing a connection itself.  `DirectNeighbors.WithdrawnExactlyWhen` says in which steps a node
  says so, and `DirectNeighbors.KnownNeighborIsStable` what is true instead: once a node has read a neighbour's ROUTE
  message about itself it does not withdraw that neighbour while the connection lasts.
- `main.c:112-130`, the direct join command, does not ask whether the node is in a ring.
  `NeighborAgreement.DirectJoinCanForget` is a history after which an open connection has neither a role nor an ID, so
  that the program exits when it is read (`ring.c:603-605`, `ring.c:620-622`);
  `NeighborAgreement.ForgottenExactlyWhen` says when this happens.

## Model

| member | source | states |
|---|---|---|
| RoutingTable.CopyPath | routing.c:81-86 | Copying a path copies its hop count and its nodes; the rest of the buffer does not matter. |
| RoutingTable.ArePathsEqual | routing.c:73-80 | Two buffers compare equal exactly when they hold the same path, or both none. |
| RoutingTable.FindSlot | routing.c:25-32 | The lookup returns the slot that holds the ID, or says that no slot does. |
| RoutingTable.RoutingTable.constructor | routing.c:283-290 | After `init_routing` the slots stand for the empty table. |
| RoutingTable.RoutingTable.GetRecipientIndex | routing.c:24-47 | Finds or allocates a row without changing the table the slots stand for, so a recycled row shows no old path; it runs out exactly when all rows are taken by other nodes. |
| RoutingTable.RoutingTable.GetNeighborIndex | routing.c:48-70 | The same for a column. |
| RoutingTable.RoutingTable.FindClosestNeighbor | routing.c:148-162 | The search finds a neighbour whose path is as short as any in the row, and none exactly when the row has no path. |
| RoutingTable.RoutingTable.CleanPath | routing.c:117-131 | A reported path becomes no path if it crosses this node. |
| RoutingTable.RoutingTable.ChooseAgain | routing.c:148-179 | The row's choice becomes a shortest path, the old choice if that is still one; a row without a path is freed and no other. |
| RoutingTable.RoutingTable.UpdateRow | routing.c:133-187 | Exactly one entry changes, and the result says whether the row's neighbour or path content differs from before. |
| RoutingTable.RoutingTable.UpdateRoutingGivenNewPath | routing.c:104-187 | Refines the abstract update: one entry is replaced by the cleaned path, the choice is minimal and sticky, the flag is true exactly when the pair of neighbour and path, or its absence, changed, also when a row was created and freed in the call; and when it runs out of slots. |
| RoutingTable.RoutingTable.RouteMessage | routing.c:219-230 | What is announced about a recipient is this node followed by its chosen path, or no path without a row. |
| RoutingTable.RoutingTable.AnnounceNewPath | routing.c:219-237 | One message is broadcast, with the current best path. |
| RoutingTable.RoutingTable.UpdateRoutingAndAnnounce | routing.c:258-262 | An update is announced once if the best path changed, and not otherwise. |
| RoutingTable.RoutingTable.FreeColumn | routing.c:101 | Freeing the emptied column of a neighbour leaves the table as it is, and no row's choice on the freed column. |
| RoutingTable.RoutingTable.WithdrawFromRows | routing.c:95-100 | The removal loop withdraws the neighbour from every row that existed when it began, although rows are freed on the way. |
| RoutingTable.RoutingTable.RemoveRoutingNeighbor | routing.c:89-102 | The table becomes the one without that neighbour, every row chooses again, and each recipient whose best path changed is announced once and no other. |
| RoutingTable.RoutingTable.SendShortestPaths | routing.c:239-256 | Writes the node itself and then each recipient it has a path to, once, with its best path. |
| RoutingTable.RoutingTable.ForwardMessage | routing.c:264-281 | A chat message is dropped exactly when there is no route, handed to the neighbour chosen for its recipient if there is a connection to it, and otherwise the null connection is followed, which does not happen while all neighbours with a column are connected. |
| RoutingTable.RoutingTable.RowsAreTheChosen | routing.c:11-16 | Which nodes have a row depends on the table alone, not on the history of its slots. |
| RoutingTable.CapacitySuffices | routing.h:8-9 | If all IDs come from a universe with one node more than there are slots, this node included, a free slot is found whenever one is needed. |
| RoutingTable.OperationStaysWithin | routing.c:89-187 | An update or removal that mentions only nodes of a universe gives rows and columns to no others. |
| RoutingTable.HistoryStaysWithin | routing.c:11-16 | So after any sequence of updates and removals from the empty table only they have rows and columns. |
| RoutingTable.RoutingTable.AllocationSucceeds | routing.c:114-115 | So in every such table neither allocation of an update reaches its exit. |
| RoutingTable.WithoutInitOnlyNodeZeroFits | main.c:118-125 | With the zeros of a fresh process in the ID arrays every ID but 0 runs out of slots. |
| RoutingSpec.UpdateKeepsInv | routing.c:148-179 | After any update every choice is minimal and every row with a path has one. |
| RoutingSpec.RemovalKeepsInv | routing.c:89-102 | The same after a removal, and no choice is the removed neighbour. |
| RoutingSpec.ChangedExactlyWhen | routing.c:181-186 | When an update is announced, in terms of the old table and the report: the chosen neighbour reports something else, or another one something usable and strictly shorter. |
| LoopFreedom.NextKeeps | ring.c:221-228 | Each step of any node, closes of all kinds included, keeps all stored and unread paths free of loops, of their owner and of the recipient, and starting with the neighbour that sent them. |
| LoopFreedom.RunIsLoopFree | routing.c:120-127 | So they are in every state of every run, whatever is opened, closed or left, and with any number of connections between two nodes. |
| LoopFreedom.PathsAreShort | routing.h:15-21 | A stored path has at most N-2 hops and an announced one at most N-1 nodes. |
| Synchronization.DeliveredEntry | ring.c:182-231 | Reading a ROUTE message changes the entry for its sender and recipient to the cleaned path, and no other. |
| Synchronization.AnnouncedWord | routing.c:219-262 | A node that announces every change of a best path says last what it uses now, or nothing new about what has not changed. |
| Synchronization.DumpedWord | routing.c:239-256 | A node that sends all shortest paths says last what it uses now, or nothing new about what it has no path to. |
| Synchronization.ReadInStep | ring.c:182-255 | Reading a message on any of several connections keeps two nodes in step. |
| Synchronization.InStepExactlyWhen | routing.c:181-186 | After any step two nodes are in step about a recipient (the last word on every unread queue that mentions it is the sender's current path, and without one the entry is) exactly when the step neither changes the path beside an unread word that cannot be corrected nor loses or overwrites the last word. |
| Synchronization.SynchronizedExactlyWhen | routing.c:181-186 | So a step keeps all connected nodes in step exactly when it is orderly for each pair. |
| Synchronization.RunIsSynchronizedExactlyWhen | routing.c:219-262 | A run is in step throughout exactly when all its steps are orderly. |
| Synchronization.ClosingOneOfSeveralExactlyWhen | ring.c:162-167 | Closing one of several connections to a node, where the column is kept, leaves the two in step about a recipient exactly when what is discarded does not mention it, another unread queue does, or the entry is current already. |
| Interleavings.EveryOrderExactlyWhen | main.c:507-518 | Several queues of messages end, in whatever order they are read, with the same entry exactly when the last word of each that has one is that entry, or none has one and it is there already. |
| Interleavings.InStepIsEveryOrder | main.c:507-518 | So being in step is ending with the sender's current path in whatever order the connections are read. |
| Columns.HarmlessExactlyWhen | ring.c:456-459 | A step leaves no entry from a node without a known connection to it exactly when it is not a close without removal of the last connection with an entry in its column, nor a departure that leaves entries. |
| Convergence.OneHop | routing.c:264-276 | When nothing is unread, the path of a node goes on as the path of the neighbour it forwards to. |
| Convergence.NoWalkIsShorter | routing.c:148-162 | When nothing is unread, a node that can reach another over open connections has a path no longer than any walk. |
| Convergence.QuietMeansShortest | routing.c:104-187 | When the invariants hold and nothing is unread, a node has a row for another exactly when it can reach it, and its hop count is the distance minus one. |
| Convergence.RunConvergesToShortest | routing.c:104-187 | The same for any state of any run from the beginning, with any number of connections between two nodes, as long as every step was orderly and harmless. |
| Convergence.ChatFollowsPath | ring.c:264-276 | A chat message visits exactly the nodes of the sender's path and arrives after one send more than the hop count, not earlier. |
| Openings.OpeningIsOrderly | ring.c:399-427 | As long as nothing is closed every step is orderly, also opening further connections between the same nodes, in answer to a greeting or not. |
| Openings.OpeningRunConverges | routing.c:104-187 | So every run that closes nothing is in step throughout, and converges to shortest paths. |
| SoleConnections.SoleIsOrderly | ring.c:611-629 | As long as no two nodes have two connections at a time every harmless step is orderly. |
| SoleConnections.SoleRunConverges | routing.c:104-187 | So such runs are in step throughout and converge to shortest paths, whatever connections went up and down. |
| StaleColumns.NoGhostsExactlyWhen | ring.c:456-459 | With one connection between two nodes, a step is harmless if and only if no ghost route is left in any quiet state of any continuation that is harmless itself. |
| StaleColumns.GhostRoute | ring.c:80-92 | A run in which a node leaves its ring and is then in one alone, that ends with nothing in flight and a path to a node that cannot be reached. |
| ParallelGhost.ParallelGhostRoute | ring.c:162-167 | A run without any close that leaves a column unguarded, at the end of which nothing is in flight and a node has a path to one that cannot be reached, because it has discarded the withdrawal on the second of two connections. |
| Termination.DeliverFalls | routing.c:258-262 | Reading a ROUTE message lowers a measure of what is unread and what best paths there are, although it may set off further messages. |
| Termination.GreetFalls | ring.c:476-481 | So does answering a new connection with all shortest paths. |
| Termination.ReadingFalls | ring.c:171-256 | Every step but opening and closing connections lowers the measure in every reachable state, whatever was closed before and however: no counting to infinity. |
| Termination.ReadingEnds | ring.c:171-256 | However messages are interleaved, reading takes at most as many steps as the measure says. |
| Progress.SettlingGoesOn | main.c:477-518 | A network that is not quiet has a node that can accept, read, answer, or close a connection whose other end is closed. |
| Progress.SettlingFalls | ring.c:611-629 | Each such step leaves fewer connection ends to deal with, or as many and less to read. |
| Progress.SettlingEnds | main.c:507-518 | So there is no endless run of such steps, in any order. |
| Progress.ReachesQuiet | main.c:477-518 | Every reachable state can be continued by such steps to one in which nothing is in flight. |
| Progress.SoleReachesShortest | routing.c:104-187 | With one connection between two nodes all paths are shortest then. |
| Announcements.DeliveryIsBetterExactlyWhen | routing.c:164-171 | Reading a message leaves every best path as it is or makes it strictly shorter exactly when it is not the chosen neighbour that reports no usable path or another one that is not shorter. |
| Announcements.DeliveryShortens | routing.c:164-171 | Then a best path that changes is the first one or strictly shorter. |
| Announcements.NextImproves | routing.c:104-187 | While no connection goes down and none comes up beside another, no step lengthens or withdraws a best path; every node on a stored or unread path has by then a path at least as short as the rest of it. |
| Announcements.RunGetsBetter | routing.c:104-187 | So in every run of this kind. |
| Announcements.SecondConnectionLengthens | ring.c:399-427 | With two connections between two nodes, all of them in step, reading old news on the second one lengthens a best path. |
| Announcements.AnnouncedIsShorter | routing.c:219-237 | Every announcement after the first is strictly shorter. |
| Announcements.BoundedAnnouncements | routing.c:219-262 | Each node announces each recipient at most N-1 times. |
| DirectNeighbors.KnownNeighborIsStable | ring.c:248-251 | Once a node has processed `ROUTE u u u` from u its best path to u has no hops, and no step changes or announces it but closing the last known connection to u with removal, or clearing the table. |
| DirectNeighbors.KnownNeighborForTheRun | ring.c:221-228 | The same over any stretch of any run until that happens. |
| DirectNeighbors.CloseWithdraws | routing.c:89-102 | Closing a connection withdraws exactly the recipients that had an entry for that neighbour and no other, if no other connection to it is known. |
| DirectNeighbors.DeliveryWithdraws | ring.c:182-255 | Reading a ROUTE message withdraws its recipient exactly when it brings no usable path and its sender was the only neighbour with a path. |
| DirectNeighbors.WithdrawnExactlyWhen | ring.c:248-251 | Over all steps and all messages written: a node says it has no path to another exactly in these two cases. |
| SelfWithdrawal.NeighborCanWithdrawUs | ring.c:248-251 | A run at the end of which a node is told by its neighbour, over an open connection, that it has no path to it: the neighbour closed another connection. |
| SelfWithdrawal.NeighborCanPassOnWithdrawal | ring.c:248-251 | Another such run, in which the neighbour closed nothing and passes on what it has read. |
| WireFormat.MessagesArePrintable | main.h:13-16 | In a network of at most `MAX_NODES` nodes with two-digit IDs, every message of every run can be printed within the buffers and read back. |
| RouteText.PathToString | routing.c:191-206 | Prints this node, the hops and the recipient with dashes between them, 3 (hops + 2) - 1 characters, and nothing for an invalid path. |
| RouteText.GetRouteMessage | routing.c:208-217 | Prints a ROUTE message with or without a path; text and terminator fit in 14 + 47 bytes exactly when the path has at most 14 hops. |
| RouteText.ParsePath | ring.c:194-219 | The parsing loop, with its indices into the string and into the array of `MAX_NODES` IDs, reads the IDs that the grammar gives, rejects the string, or writes behind the end of the array, the last exactly when more IDs than that are stored before it stops. |
| RouteText.OverrunExactlyWhen | ring.c:206-212 | The array is overrun exactly when the string starts with more than `MAX_NODES` IDs. |
| RouteText.FitsExactlyWhen | ring.c:209 | A string that is otherwise accepted fits the array exactly when it has fewer than `MAX_NODES` dashes. |
| RouteText.LongPathOverruns | ring.c:209 | A string of 33 characters, within `MAX_PATH_STR_LENGTH`, overruns the array. |
| RouteText.PassedOnFitsExactlyWhen | routing.c:229-230 | What a node announces after taking over an accepted path fits in its buffer exactly when the path string had at most 14 dashes, one less than the array has room for. |
| RouteText.LongPathIsAccepted | ring.c:209 | A string with 15 dashes is accepted, and needs 64 bytes to be passed on. |
| RouteText.ParseReadsTokens | ring.c:197-218 | It accepts exactly the strings that have at most two digits between dashes and nothing else, and yields their values. |
| RouteText.ParsePathText | ring.c:194-219 | The text of a path is read back as that path. |
| RouteText.ReadRoute | ring.c:171-256 | Of a printed ROUTE message the receiver gets the sender's announcement back, unless it is told about itself; one in the name of another node than the neighbour is ignored; no message is accepted whose hops contradict its sender or that has more of them than the array holds; and when the array is overrun. |
| ReadLines.LineBuffer.Search | read-lines.c:15-23 | The loop hands over the lines among the first `len` bytes and leaves the rest of the buffer alone. |
| ReadLines.LineBuffer.MoveToFront | read-lines.c:30-32 | The incomplete message is moved intact even where source and target overlap. |
| ReadLines.LineBuffer.Read | read-lines.c:6-35 | One call returns an error, the end, an overflow exactly when the buffer is full and the searched bytes hold no newline, and success otherwise; it hands over, keeps or discards what the framing functions say, and leaves room in the buffer. |
| ReadLines.FrameIsExact | read-lines.c:15-23 | The lines handed over by one call, with their newlines, and the bytes left then, kept or discarded, are the bytes there were. |
| ReadLines.EveryByteAccountedFor | read-lines.c:15-34 | However the stream is cut into pieces and whatever overflows, each of its bytes is, in order, part of a line handed over or the newline after it, discarded by an overflow, or still in the buffer. |
| ReadLines.LinesAreAPrefix | read-lines.c:15-34 | As long as no call has overflowed, the lines handed over are the first lines of the stream, and all of its complete ones exactly when no newline is retained. |
| ReadLines.ResultExactlyWhen | read-lines.c:25-34 | A call that reads something returns RL_OVERFLOW, and keeps nothing, exactly when the buffer is full and the bytes that are searched hold no newline; otherwise it returns RL_OK and keeps the rest. |
| ReadLines.LineDiscardedExactlyWhen | read-lines.h:11-12 | An overflow discards a complete line, which is not bigger than the buffer, exactly when besides there is a newline among the bytes that are not searched. |
| ReadLines.DiscardedLine | read-lines.h:11-12 | A line of three bytes is discarded from a buffer of four. |
| ReadLines.NothingLeftBehindExactlyWhen | read-lines.c:17 | A call leaves no newline behind exactly when the bytes it does not search hold none. |
| ReadLines.AlignedPiecesAreNotDelayed | read-lines.c:17 | With an empty buffer all complete lines are handed over at once. |
| ReadLines.DelayedLine | read-lines.c:17 | A line that came in two pieces stays in the buffer although it is complete. |
| ReadLines.SearchingAllIsExact | read-lines.c:15-23 | If all bytes in the buffer were searched, the lines handed over and the bytes kept would be those of the stream, however it is cut into pieces, whenever each line fits. |
| Connections.ConnectionPool.AddConnection | connections.c:21-35 | A new socket gets a free slot and an unknown ID; nothing else changes, and it fails exactly when all slots are taken. |
| Connections.ConnectionPool.CloseConnection | connections.c:37-47 | The socket is gone, each of the four role pointers is null if it pointed to that slot and stays as it was otherwise, and no other slot changes; closing a closed or null connection does nothing. |
| Connections.ConnectionPool.FindConnectionBySocket | connections.c:49-56 | Finds the slot of an open socket, and none exactly when it is not open. |
| Connections.ConnectionPool.FindConnectionByNodeId | connections.c:57-64 | Finds an open connection to the node, and none exactly when there is none. |
| Connections.ConnectionPool.InboundChord | connections.c:66-68 | A connection is an inbound chord exactly when it has no other role. |
| NeighborAgreement.OneClassEach | ring.c:594-608 | Each open connection is handled in exactly one way. |
| NeighborAgreement.PoolInvKeptExactlyWhen | ring.c:375-582 | Every event keeps that role pointers that are not null point to open connections, each to its own, and that only the newest connection has an unknown ID, except joining a ring while a new connection has not told its ID. |
| NeighborAgreement.ForgottenExactlyWhen | ring.c:603-605 | This is also exactly when a connection is left with neither role nor ID, at which the program exits when it is read. |
| NeighborAgreement.DirectJoinCanForget | main.c:112-130 | A history that leaves such a connection. |
| NeighborAgreement.AgreementKept | ring.c:162-167 | Every event but two keeps a connection to every node that has a column; joining a ring restores it. |
| ConnectionLife.LifeOfConnection | ring.c:375-582 | For every connection and every event: which role it plays afterwards, or that it is gone; a chord, say, is closed only by its removal, by becoming superfluous, when it breaks or when the ring is left. |
| ConnectionLife.IdsAreLearntOnce | ring.c:375-500 | A connection keeps the ID of its node, which it gets when it is dialed or with its first message. |
| ConnectionLife.ColumnsExactlyWhen | ring.c:162-167 | Which columns there are after every event: only ROUTE messages add one, and a close removes that of its node exactly when no other connection to the node is open then. |
| NeighborAgreement.PredKeepsAgreementExactlyWhen | ring.c:450-472 | A PRED message keeps it exactly when the predecessor it replaces had no column, is the same node, or has another connection. |
| NeighborAgreement.PredCanBreakAgreement | ring.c:450-472 | A history from the start of the program in which a PRED message leaves a column without a connection. |
| NeighborAgreement.LeaveRingAgreesExactlyWhen | ring.c:80-92 | Leaving the ring keeps it exactly when there are no columns. |
| NeighborAgreement.RejoiningAgreesExactlyWhen | main.c:118-130 | After leaving, joining another node restores it, and a direct join to oneself has it exactly when there were no columns. |
| NeighborAgreement.RejoiningCanBreakAgreement | main.c:118-125 | A history in which a node leaves its ring and starts one of its own with a column and no connection. |
| RoleMoves.HandlersAgree | ring.c:284-629 | Reading a message moves connections between roles in `Ring` as the corresponding event does in `NeighborAgreement`. |
| RoleMoves.ClosesAgree | ring.c:284-629 | And a connection with a role is closed in `Ring` exactly when its socket leaves the pool in `NeighborAgreement`. |
| RingNode.RingNode.StartAlone | main.c:118-125 | A direct join to oneself makes the node its own successor and second successor. |
| RingNode.RingNode.CloseConnection | connections.c:37-47 | Closing a connection leaves no role pointer on it. |
| RingNode.RingNode.LeaveRing | ring.c:80-92 | All connections of the ring are closed and the node is disconnected. |
| RingNode.RingNode.OnJoinEnd | ring.c:124-134 | The node is connected. |
| RingNode.RingNode.Accept | main.c:502-505 | An accepted connection becomes that of the new node. |
| RingNode.RingNode.JoinRing | ring.c:94-121 | The node connects to its successor, sends ENTRY and awaits SUCC and PRED. |
| RingNode.RingNode.HandleMessageFromSucc | ring.c:284-357 | SUCC and ENTRY from the successor do what the ring model says: a second successor, a new successor, or leaving the ring; it exits exactly when it would follow a null predecessor. |
| RingNode.RingNode.HandleMessageFromPred | ring.c:360-372 | ENTRY from the predecessor while connecting aborts the join. |
| RingNode.RingNode.HandleEntry | ring.c:382-449 | ENTRY from a new node, in all its cases: refused, alone, in a ring, still connecting. |
| RingNode.RingNode.HandlePred | ring.c:450-486 | PRED from a new node replaces the predecessor, stops the timer and answers SUCC; it ends the join when SUCC has come before. |
| RingNode.RingNode.HandleBrokenSucc | ring.c:514-564 | The node turns to its second successor and tells its predecessor, is alone, or leaves. |
| RingNode.RingNode.HandleBrokenPred | ring.c:566-582 | The node awaits a new predecessor, or is alone, or leaves. |
| RingNode.RingNode.Handle | ring.c:593-629 | Messages and broken connections are dispatched on the role of the connection. |
| RingLaws.ConsistentKept | ring.c:593-629 | Every handler keeps that the connection to the successor is the one dialed to it, that the others come from other nodes, that no two roles share one, and that a joining node still waits for an answer. |
| RingLaws.ClosedExactlyWhen | ring.c:284-629 | Every handler closes exactly the connections that lose their role, the one being read included; none is left open without a role. |
| RingLaws.DialedExactlyWhen | ring.c:284-582 | Exactly the connections that get a role are dialed; they lead to the successor, which is sent PRED first. |
| RingLaws.PredecessorIsTold | ring.c:284-582 | Whenever the successor or the predecessor of a node changes, the predecessor is sent SUCC with the successor. |
| RingLaws.HandedOverIsTold | ring.c:429-445 | A predecessor that a newcomer replaces is sent ENTRY with the newcomer. |
| RingLaws.SaidExactlyWhen | ring.c:284-582 | Nothing else is sent. |
| RingLaws.TimerExactlyWhen | ring.c:566-582 | The timeout for a predecessor is started exactly when a connected node loses its predecessor and is not left alone, and stopped exactly when a PRED message is accepted. |
| RingLaws.DisconnectedExactlyWhen | ring.c:80-92 | When a node leaves the ring or gives up joining, in terms of what it reads; it then closes all its connections, keeps no role and is disconnected, and is disconnected for no other reason. |
| RingLaws.JoinEndsExactlyWhen | ring.c:124-134 | A joining node becomes connected, and `on_join_end` is called, exactly when it has heard from both neighbours. |
| RingLaws.WelcomeExactlyWhen | ring.c:375-500 | When a new node becomes the predecessor; otherwise only its connection is closed. |
| RingLaws.RolesMove | ring.c:375-582 | Which connection is that of the new node and of the predecessor after each message. |
| RingLaws.SuccessorConnectionMoves | ring.c:284-564 | And that of the successor: a new one exactly when the successor changes or its connection breaks, none for a node alone. |
| RingLaws.AwaitsExactlyWhen | ring.c:284-564 | Which of SUCC and PRED a node still waits for. |
| RingLaws.SuccessorsMove | ring.c:284-564 | The successor and the second successor after each message. |
| RingLaws.ExitsExactlyWhen | ring.c:284-500 | When a handler exits or follows a null predecessor. |
| RingLaws.LostConnectionIsEnded | ring.c:611-629 | The other end of every connection that loses its role reads the end of it. |
| RingLaws.RefusedConnectionIsEnded | main.c:490-500 | A connection that is not accepted ends at its opener and changes nothing else. |
| Ring.SettledFromAnyMember | ring.c:124-134 | A settled ring is settled whichever member the listing starts from. |
| Ring.StepExists | main.c:477-518 | Every step that a node can take has an outcome. |
| RingJoin.JoinStep | ring.c:284-504 | From every state of a join, every possible step of any node is one of the eight events of the join, and no node exits. |
| RingJoin.JoinGoesOn | ring.c:94-134 | Until the join is done some node can go on. |
| RingJoin.JoinSettles | ring.c:94-134 | For a ring of any size from one and every interleaving: at most eight steps, and when none is left the ring has the newcomer between the target and its predecessor, all of succ, second_succ and pred are right, and `on_join_end` ran exactly once. |
| RingJoin.JoinAnywhereSettles | ring.c:382-445 | The same for a newcomer that connects to any member. |
| RingJoin.RolesDifferThroughout | ring.c:593-608 | During a join the role pointers of every node stay distinct, as the handlers of `RingNode` require. |
| RingDeparture.RepairStep | ring.c:514-582 | From every state of a repair, every possible step is one of its six events, and no node exits or leaves. |
| RingDeparture.RepairGoesOn | ring.c:514-582 | Until the repair is finished some node can go on. |
| RingDeparture.DepartureSettles | ring.c:514-582 | For every interleaving of broken connections, SUCC and PRED: at most six steps, and when none is left the others form the ring without the departed node, with all pointers right and no timeout running; three nodes become two and two one. |
| RingDeparture.AnyDepartureSettles | ring.c:611-629 | The same for any member. |
| RingDeparture.PredCanComeFirst | ring.c:450-472 | In every ring of three or more a repair is possible in which PRED is read while the connection of the departed predecessor is still open, and closes it. |
| RingDeparture.RolesDifferThroughout | ring.c:593-629 | During a repair the handlers of `RingNode` can be called at every node. |
| RingEnds.ReadKeepsMatch | ring.c:593-629 | Reading any message at any node keeps that whoever has a connection open, or has still to accept it, has a partner or will read that it has gone. |
| RingEnds.EndsMatchThroughout | ring.c:593-629 | So in every run of the ring, with joins, repairs and departures overlapping or not, in which no program exits and names of connections are not used twice at a time. |
| RingEnds.QuietEndsAgree | ring.c:593-629 | When everything has been accepted and read, every connection is open at both ends or at neither. |
| RingEnds.LeavingKeepsMatch | ring.c:80-92 | A node that leaves at any time keeps the ends matching. |
| RingNames.JoinKeepsMatch | ring.c:94-134 | The ends match throughout every join. |
| RingNames.RepairKeepsMatch | ring.c:514-582 | And throughout every repair. |

## Left out

- Sockets, `select`, addresses, the node server, the user interface and printing: connections are first-in first-out channels, and what comes from outside is a parameter.
- Failing sends and connects: sends and connects succeed, and a connection breaks in a step of its own.  Left out with them are the pool slot that stays open after a failed connect (`ring.c:58-69`) and `conn_printf` calling the handler of a broken connection from within another handler (`connections.c:83-86`).
- Which runs of `Network` the ring handlers make: any node may open, greet and close connections at any time, as chords, joins and repairs do; that roles and connections move together is in `NeighborAgreement` and `RoleMoves`.
- Announcements.NextImproves: is about runs with one connection between two nodes, because with two it does not hold (`Announcements.SecondConnectionLengthens`).
- SoleConnections.SoleRunConverges: leaves out runs with two connections between two nodes; for those the condition of `Synchronization.SynchronizedExactlyWhen` has to be met, which `Openings.OpeningRunConverges` does as long as nothing is closed.
- A rejected CHORD message leaves the new connection waiting (`ring.c:488-490`): in `Network` its greeting is then never read; the program reads on and ignores what comes.
- RingNode.RingNode.HandleMessageFromSucc: a chord to the entering node, which `find_connection_by_node_id` would find, is not seen, because `Ring` has no chords.
- RingNode.RingNode.HandlePred: does not close a degenerate chord (`ring.c:463-468`), because `Ring` has no chords; `NeighborAgreement` has.
- RingNode.RingNode.HandleBrokenSucc: the same (`ring.c:542-547`).
- Chords, ROUTE and CHAT messages in the ring: `Ring`, `RingJoin` and `RingDeparture` are about ENTRY, SUCC and PRED; the pool with chords is in `NeighborAgreement`.
- Overlapping joins, departures during a join or repair, duplicate IDs and timeouts that run out before the repair is done: the handlers do not claim to survive these.
- Timers: only whether the timeout for the predecessor is set; `set_timeout` and its arithmetic are not part of this model.
- RingNode.RingNode.Handle: `Ring` names a connection by its opener and its acceptor, so this method asks that no two connections with a role, and no other connection that is read, have the same name; the `RolesDifferThroughout` lemmas show that roles have different names during a join or a repair.  The handlers it calls need no such thing.
- RingEnds.EndsMatchThroughout: asks that no connection is dialed while one between the same nodes, opened by the same one, is open at the other end, because `Ring` gives both the same name; `RingNames` shows that in joins and repairs none is.
- RouteText.ReadRoute: says what becomes of every printed message and what any accepted message satisfies, not which other spellings `sscanf` accepts (signs, spaces, leading zeros).
- ReadLines.LineBuffer.Read: a line is given up to its newline, not cut at a NUL byte within it.
- Malformed or dishonest peers: all nodes of a network run this code.
- Integer widths: node IDs and indices are at most 99 and 16 in the program and fit their types, so they are plain integers here.
