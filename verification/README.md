# Verified models of ezgrpc2

This project models the parts of ezgrpc2 that hold state and proves what they keep:

- **the socket poller** of wepoll: the red-black tree with parent pointers, changed in place
  (`TreeShape`, `TreeRotate`, `TreeInsert`, `TreeSplice`, `TreeDelete`, `TreeStage`,
  `RedBlackTree`); the reference lock and the handle tree around it as a protocol of any number of
  threads (`RefLock`); the poll groups (`PollGroups`); the port with its sockets, requests and
  queues (`EpollEvents`, `PortState`, `PortWalk`, `PortRuns`, `SocketPort`); and the intrusive queue
  (`IntrusiveQueue`);
- **gRPC framing**: the length-prefixed message format (`Wire`), the reader (`MessageReader`), the
  encoder that stops and resumes anywhere (`StreamEncoder`), the receive side (`StreamReceiver`);
- **the pollable thread pool** as a machine over its critical sections (`ThreadPool`);
- **containers and sessions**: the doubly linked list (`LinkedList`), the block event queue
  (`EventQueue`), the session slots (`SessionLog`, `SessionTable`, `Sessions`).

`Basics` and `MapSum` hold what several of them share. `dafny verify dfyconfig.toml` checks
everything.

How the models are built:

- Code that works in place is a class with the same fields, whose methods take the same branches.
  A method is proved against a function or an abstract value (a map, a sequence, a state), and the
  properties are lemmas about that. Ghost fields record history: what was sent, received, written,
  freed.
- The tree keeps a ghost snapshot of its nodes. Beside the fields of a node it records the key
  interval and black height of the subtree; with these the invariant is a set of facts about single
  nodes and the heights of two neighbours, and the interval widths bound every walk.
- A class of threads that share memory is a state with one step per atomic action; properties hold
  after every legal run. The port and the session table are such machines too (`PortRuns.Step`,
  `SessionTable.Polled`): what is proved of every legal run there holds of the objects, because every
  sequence of method calls is proved to be one (`SocketPort.Run`, `Sessions.Run`).
- Windows, nghttp2, the clock, allocation and the uuid generator are inputs. Their answers are
  arguments of the operations, and every statement holds for all of them. What the kernel holds for
  a port (requests in flight, completions taken by a thread) is part of the port's state.

Where the code and its own text differ, or where a promise of the code has an exception, the code is
modelled as it is and the exception is stated exactly:

- `parse_grpc_message` does not step over the data of a message it has found
  (src/internal_nghttp2_callbacks.c:49-52), so it reads that data as the next header.
  `StreamReceiver` has a flag for stepping over it; setting it is a departure from the code. As
  written, a stream is reassembled right exactly when every whole message of it is empty
  (`Receiver.Frame`, `Run`; `AsWrittenGoesWrong` is an input); conservation of bytes, the bounds and
  the terminal event hold either way.
- The encoder asserts that a queued message is longer than what was sent of it
  (src/internal_nghttp2_callbacks.c:95). A drain fails exactly when some queued message is empty
  (`Drain`, `RoundTrip`; `EmptyMessageSticks` is the input).
- For a buffer below five bytes the encoder returns `NGHTTP2_INTERNAL_ERROR`, the HTTP/2 error code
  2 of section 7 of RFC 9113 (src/internal_nghttp2_callbacks.c:71-74); a caller that takes the
  result as a length sees two bytes. The model returns it as a refusal.
- `port_get_iocp_handle` asserts that the port is open (src/wepoll.c:1444-1447). A thread may still
  be inside `epoll_ctl` when the port is closed (`ClosedWhileInUse`), and adding a socket then runs
  into that assertion exactly when every poll group is full (`CtlAdd`, `ExhaustedIsFull`,
  `AddAfterClose`).
- `session_find` finds the all-zero handle, which no session ever has, in the slot of the first
  listening socket (`FoundMeansConnected`).
- List `find` and `remove` match where the comparison returns 0 (src/ezgrpc2_list.c:130,
  src/ezgrpc2_list.c:141), the reverse of the header's comment. The model's `matches` is that match.
- The push-back of a task under `stop` (src/ezgrpc2_pthpool.c:55-56) is never reached: the loop
  before it pops only while `stop` is clear and the mutex is held until the test.

## Model

| member | source | states |
|---|---|---|
| RedBlackTree.Tree.Find | src/wepoll.c:2169-2180 | answers as the map from keys to nodes does, after at most 2*log2(n+1) nodes |
| RedBlackTree.Tree.Add | src/wepoll.c:2036-2069 | -1 with heap and root unchanged when the key is taken; otherwise the map gains exactly this key and node, and the tree is again a linked, ordered red-black tree |
| RedBlackTree.Tree.Delete | src/wepoll.c:2096-2167 | the map loses exactly the node's key, and the tree is again a linked, ordered red-black tree |
| RedBlackTree.Tree.Descend | src/wepoll.c:2039-2052 | finds the key, or the one missing child where the key belongs |
| RedBlackTree.Tree.RebalanceAfterInsert | src/wepoll.c:2059-2066 | the climb ends with a red-black tree on the same nodes and keys |
| RedBlackTree.Tree.InsertIteration | src/wepoll.c:2017-2034 | one turn keeps everything but the one red-red edge, which moves up or goes away |
| RedBlackTree.Tree.RotateLeft | src/wepoll.c:1980-2003 | the stores of a left rotation give exactly the turned snapshot and root |
| RedBlackTree.Tree.RotateRight | src/wepoll.c:2005-2007 | likewise for the mirror rotation |
| RedBlackTree.Tree.UnlinkSingle | src/wepoll.c:2103-2120 | unlinking a node with a missing child leaves a red-black tree, or one whose one subtree is a black node short |
| RedBlackTree.Tree.UnlinkPromoting | src/wepoll.c:2107-2146 | the in-order successor takes the node's place, links and colour; what is short is the successor's old place |
| RedBlackTree.Tree.RepairShortage | src/wepoll.c:2148-2166 | the repair loop ends with a red-black tree on the same nodes and keys |
| RedBlackTree.Tree.RemoveIteration | src/wepoll.c:2153-2163 | one turn repays the shortage or moves it one level up |
| TreeShape.AllBelowRoot | src/wepoll.c:2169-2180 | every node of the snapshot is reached from the root by links |
| TreeShape.GapIsEmpty | src/wepoll.c:2041-2048 | no key of the tree lies in the interval of a missing child |
| TreeShape.BlackHeightCount | src/wepoll.c:2071-2094 | a subtree of black height b holds at least 2^b - 1 nodes |
| TreeShape.RootWalkBound | src/wepoll.c:2169-2180 | twice the black height of the root bounds the walk by 2*log2(n+1) |
| TreeRotate.RotateLinked | src/wepoll.c:1980-1999 | a rotation keeps search order and the agreement of parent and child links |
| TreeRotate.RotationStores | src/wepoll.c:1985-1999 | the stores of the macro, one after another, build the rotated snapshot |
| TreeInsert.RecolourStep | src/wepoll.c:2021-2024 | recolouring under a red uncle moves the one red-red edge to the grandparent |
| TreeInsert.InnerStep | src/wepoll.c:2026-2030 | the first rotation makes an inner grandchild an outer one and keeps the rest |
| TreeInsert.OuterStep | src/wepoll.c:2031-2033 | recolouring and the second rotation end the climb with no red-red edge |
| TreeInsert.FinishInsert | src/wepoll.c:2066 | blackening the root makes the tree red-black |
| TreeSplice.BypassLinked | src/wepoll.c:2113-2120 | taking a node with a missing child out keeps order and links |
| TreeSplice.BypassBalance | src/wepoll.c:2139-2147 | it leaves the tree red-black if the node was red, and exactly one black node short at its place if not |
| TreeSplice.PromoteLinked | src/wepoll.c:2122-2138 | putting the successor in the node's place keeps order and links |
| TreeSplice.PromotionStores | src/wepoll.c:2113-2145 | the stores of both cases (the successor is the right child, or deeper) build the same kind of snapshot |
| TreeSplice.PromoteBalance | src/wepoll.c:2123-2147 | with the colour taken over, only the successor's old place can be short |
| TreeDelete.RedSiblingStep | src/wepoll.c:2074-2079 | rotating a red sibling up keeps the same shortage beside a black sibling |
| TreeDelete.MoveUpStep | src/wepoll.c:2094 | with two black nephews, reddening the sibling moves the shortage to the parent |
| TreeDelete.NearNephewStep | src/wepoll.c:2082-2087 | rotating a red near nephew gives a red far nephew |
| TreeDelete.FarNephewStep | src/wepoll.c:2088-2092 | rotating under a red far nephew makes the tree red-black |
| TreeDelete.AbsorbRed | src/wepoll.c:2148-2150 | a red node takes the missing black itself |
| RefLock.StepInv | src/wepoll.c:1520-1585 | every step of every thread keeps: the packed word counts the references and the destroy flag, the tree lock is exclusive, and a signaller exists exactly while the closer waits with no reference left |
| RefLock.StepWord | src/wepoll.c:1554-1585 | no state assertion of ref, unref and destroy fails, for fewer than 2^28 threads |
| RefLock.PortIsSafe | src/wepoll.c:591-614 | in every run at most one closer wins, and while port_delete runs or after it nobody has a reference; freed memory is never touched |
| RefLock.SignalledExactlyWhenWaited | src/wepoll.c:1562-1585 | the event is released once if the closer went to wait and never otherwise |
| RefLock.NeverStuck | src/wepoll.c:1915-1970 | while a call is under way some thread inside a call can take a step |
| RefLock.StepsRunOut | src/wepoll.c:616-681 | every step but the start of a call shortens what is left, so calls return once the work inside port_ctl and port_wait does |
| RefLock.ClosedWhileInUse | src/wepoll.c:604-607 | a run in which a port is about to be closed while another thread is inside epoll_ctl |
| PollGroups.AcquireKeepsTight | src/wepoll.c:994-1012 | a group is made only when all are full, and the number of groups stays ceil(peak/32) |
| PollGroups.ReleaseKeepsTight | src/wepoll.c:1014-1024 | giving a slot back keeps full groups in front and the number of groups |
| PollGroups.GroupQueue.Acquire | src/wepoll.c:994-1012 | the in-place allocator does what the allocator on sizes does; null, unchanged, exactly when a new handle is needed and cannot be had |
| PollGroups.GroupQueue.Release | src/wepoll.c:1014-1024 | one member fewer, moved to the end; the assertion on the size holds |
| EpollEvents.NothingMissingIsWatched | src/wepoll.c:1724-1749 | the test on epoll masks decides that the kernel already watches enough |
| EpollEvents.EveryEventButMsgIsReported | src/wepoll.c:1730-1770 | translating to kernel events and back covers what was asked, except EPOLLMSG, which is never reported |
| EpollEvents.CompletionIsNews | src/wepoll.c:1861-1874 | a request that completes for one of its events, other than a close, has an event the user wants |
| EpollEvents.KnownEvents | src/wepoll.c:1587-1590 | which epoll events count: all but the flags |
| EpollEvents.EachKernelEvent | src/wepoll.c:1751-1770 | what each kernel event alone is reported as |
| EpollEvents.FromAfdUnion | src/wepoll.c:1751-1770 | kernel events that come together are reported together |
| EpollEvents.TablesAgree | src/wepoll.c:1730-1770 | a kernel event is watched for a mask exactly if it is reported as one of its events; the local close is always watched, and a failed connect for EPOLLERR alone |
| EpollEvents.ReportedExactly | src/wepoll.c:1730-1770 | an epoll event is reported exactly if one of the kernel events is watched for it, or is a failed connect that brings it |
| PortState.DeletedKeeps | src/wepoll.c:1676-1703 | sock__delete cancels a pending request if it can, and leaves it pending if not; it frees at once or defers; without force no request in flight loses its socket |
| PortState.InterestedKeeps | src/wepoll.c:1713-1728 | the socket has the asked interest with EPOLLERR and EPOLLHUP; one that is not covered is queued |
| PortState.InterestedQueue | src/wepoll.c:1724-1726 | a socket is queued exactly when its request does not cover what is wanted, and behind those already waiting; no other socket is touched |
| PortState.UpdatedKeeps | src/wepoll.c:1772-1832 | a successful update takes the socket out of the queue, and gives an idle one a request for all it wants; a failed one changes nothing |
| PortState.UpdatedRecord | src/wepoll.c:1772-1832 | a covered or cancelled request is left alone, one that is not enough is cancelled, an idle socket gets one for all it wants; a refused handle goes away, other failures change nothing; no other socket is touched |
| PortState.FedKeeps | src/wepoll.c:1834-1887 | a completion ends exactly one request and keeps the invariant |
| PortState.FedRecord | src/wepoll.c:1834-1887 | a deleted or closed socket goes away; any other is idle and queued behind those waiting, with its interest unless EPOLLONESHOT has used it up |
| PortState.ReportExactly | src/wepoll.c:1849-1886 | reported is exactly what the completion brings and the user wants, with the user's data; nothing of a deleted or closed socket |
| PortState.FailureIsReported | src/wepoll.c:1851-1859 | a failed request is reported as EPOLLERR alone, if wanted; a cancelled or empty one not at all |
| PortState.InterestIsCovered | src/wepoll.c:1713-1728 | an idle registered socket is queued; a pending one outside the queue is covered, in epoll and in kernel events |
| PortState.Lifecycle | src/wepoll.c:1623-1711 | in flight exactly while not idle; in the tree or awaiting its end, never both; in at most one queue; never among the freed |
| PortState.CompletionReachesUser | src/wepoll.c:1861-1887 | the report is non-empty, within the interest, with the user's data; after a one-shot nothing more is reported |
| PortState.EverySocketIsWatched | src/wepoll.c:1168-1190 | while a thread waits and the last walk did not fail, every registered socket has a request that covers its interest or is cancelled and still to complete |
| PortState.FedAllLawful | src/wepoll.c:1191-1207 | feeding a batch ends exactly the batch's requests and reports at most one non-empty event each |
| PortWalk.UpdatedAllKeeps | src/wepoll.c:1168-1184 | the walk over the update queue takes exactly the sockets out of the tree whose handle the kernel refuses, changes nobody's interest, and has failed exactly when something is left in the queue |
| PortWalk.NoneRefused | src/wepoll.c:1812-1814 | while the kernel knows every handle, no walk loses a socket |
| PortWalk.WalkLeavesEnd | src/wepoll.c:1173-1181 | the queue is served from the front: what a failed walk leaves is its end, in order |
| PortWalk.AcceptedWalk | src/wepoll.c:1168-1184 | a walk whose every request the kernel accepts empties the queue |
| PortWalk.AcceptedWait | src/wepoll.c:1280-1304 | a thread waits if the kernel accepts its walk; if it accepts the second one, nobody is left queued while others wait |
| PortWalk.WaitingKeeps | src/wepoll.c:1209-1221 | a round of port_wait up to the wait: waiting with an empty queue, or not waiting after a failed walk and a second one for the others; exactly the refused sockets are gone |
| PortWalk.FedAllKeeps | src/wepoll.c:1191-1207 | a batch takes exactly the sockets out of the tree that it reports closed, and ends the interest of exactly those with EPOLLONESHOT that it reports |
| PortWalk.FedAllTells | src/wepoll.c:1191-1207 | no completion of a batch that has a report is left out |
| PortWalk.FedAllSplit | src/wepoll.c:1191-1207 | the reports come in the order of the batch |
| PortWalk.ReturnedKeeps | src/wepoll.c:1223-1306 | what a return from the wait loses: the closed sockets of its batch and the refused ones of the walks after it |
| PortRuns.ExactStep | src/wepoll.c:1090-1459 | every call and every part of a wait takes exactly its own sockets out of the tree, frees or keeps all memory, and leaves the port lawful |
| PortRuns.RunLosesExactly | src/wepoll.c:1168-1359 | through any run a registered socket stays so exactly as long as the user does not delete it, the kernel does not refuse it and no completion reports it closed; once out it stays out |
| PortRuns.OnlyDeleteLoses | src/wepoll.c:1351-1359 | with no refusal and no close by the kernel, a step takes out at most the one socket that the user deletes |
| PortRuns.LastRequestStands | src/wepoll.c:1713-1728 | after an add or a change, through any run that does not speak of the socket again, report it with EPOLLONESHOT or take it out, it is registered with exactly the interest and data last asked for |
| PortRuns.RunCoversInterest | src/wepoll.c:1713-1832 | after any run an idle registered socket is queued, and a pending one outside the queue is covered by its request |
| PortRuns.RunWatches | src/wepoll.c:1168-1221 | after any run that leaves a thread waiting, with its last walk not failed, every registered socket has a request that covers its interest or is cancelled and still to complete |
| PortRuns.RunPlacesSockets | src/wepoll.c:1623-1711 | after any run each socket has at most one request, is in one place and at most one queue, and freed memory is in no structure of the port |
| PortRuns.RunFreesOnce | src/wepoll.c:1635-1711 | after any run the memory given to sockets is what is allocated or freed, never both; its amount is the number of successful adds, and the groups have room for all |
| PortRuns.StepKeepsRequests | src/wepoll.c:1676-1703 | no call loses the request of a socket: it stays in flight until a thread returns with its completion |
| PortRuns.RunKeepsRequests | src/wepoll.c:1690-1703 | through any run in which no thread returns with its completion, a request stays with the kernel and the memory it points to is not freed |
| PortRuns.DeletedStaysCancelled | src/wepoll.c:1680-1681 | from a delete whose cancellation succeeds on, through any run until its completion returns, the socket waits, unregistered, for the end of a cancelled request |
| PortRuns.NobodyWaits | src/wepoll.c:1186-1189 | while nobody waits, an add or a change asks nothing of the kernel and leaves the queue in order |
| PortRuns.WaitersAreServed | src/wepoll.c:1186-1221 | while threads wait, with the kernel accepting, every call leaves the queue empty |
| PortRuns.RunReports | src/wepoll.c:1849-1886 | every event reported in a run is, in one of its steps, about a registered socket of the thread's batch, with its data, and exactly what its completion brings of what it wanted |
| PortRuns.StepTells | src/wepoll.c:1849-1886 | what a completion brings of what its registered socket wants is reported in the step that returns with it |
| PortRuns.RunGroups | src/wepoll.c:994-1012 | after any run there are exactly ceil(peak/32) poll groups, for the most slots held at a time in the run, counting one taken for an add that then fails |
| SocketPort.EpollPort.Delete | src/wepoll.c:1676-1711 | in place, exactly the deletion of the value: the request cancelled if it can be, other sockets untouched, and the group given back when memory is |
| SocketPort.EpollPort.Update | src/wepoll.c:1772-1832 | in place, exactly the update of the value, for every kernel answer, and when it fails |
| SocketPort.EpollPort.Feed | src/wepoll.c:1834-1887 | in place, exactly the completion of the value; the report is exactly what the completion brings of what the user wants |
| SocketPort.EpollPort.UpdateEvents | src/wepoll.c:1168-1184 | the loop is the walk of the value: it ends, with an empty queue exactly unless an update fails, and loses exactly the refused sockets and nobody's interest |
| SocketPort.EpollPort.SockNew | src/wepoll.c:1635-1674 | which check fails first; the assertion that the port is open fails exactly for a valid socket on a closed port with no room in any group; a failure gives the group back and registers nothing |
| SocketPort.ExhaustedIsFull | src/wepoll.c:994-1012 | the look at the last group tells whether every group is full: as many sockets as 32 times the groups |
| SocketPort.EpollPort.CtlAdd | src/wepoll.c:1319-1334 | when it succeeds, fails, and runs into the open-port assertion, each exactly; it registers the socket with the asked interest, and while threads wait only refused sockets leave the tree |
| SocketPort.EpollPort.CtlMod | src/wepoll.c:1336-1349 | changes one interest, or fails exactly for an unknown socket; while threads wait only refused sockets leave the tree |
| SocketPort.EpollPort.CtlDel | src/wepoll.c:1351-1359 | fails exactly for an unknown socket; a known one is unregistered, freed if idle, and otherwise kept with its request cancelled if the kernel allows |
| SocketPort.EpollPort.PollEnter | src/wepoll.c:1209-1221 | a thread waits exactly when the walk empties the queue; only refused sockets leave the tree |
| SocketPort.EpollPort.WaitStart | src/wepoll.c:1280-1304 | when the first walk fails the queue is walked a second time for the other threads; only sockets refused in one of the two leave the tree |
| SocketPort.EpollPort.Dequeue | src/wepoll.c:1223-1228 | the kernel gives out requests in flight, each to one thread once |
| SocketPort.EpollPort.FeedEvents | src/wepoll.c:1191-1207 | the loop is the fold of single completions, in order, with their reports |
| SocketPort.EpollPort.PollReturn | src/wepoll.c:1223-1306 | the reports are those of the thread's batch; it goes round again exactly with nothing to report, time left and a walk that succeeds, and fails exactly if the wait or that walk failed; out of the tree are exactly the closed and the refused sockets |
| SocketPort.EpollPort.DeletePort | src/wepoll.c:1137-1166 | the loops end, every group is empty when deleted, the update queue is empty, and every socket left is freed once |
| SocketPort.Perform | src/wepoll.c:1090-1459 | every call or part of a wait, carried out in place, is a step of the machine, with its reports |
| SocketPort.Run | src/wepoll.c:1090-1459 | any sequence of calls and completions is a legal run of the machine, and ends in its state and with its reports; the port is open exactly if none of them closes it |
| SocketPort.RunAndDelete | src/wepoll.c:1137-1166 | the port is taken down exactly if the run has closed it and left no thread waiting; then all its structures are empty and every socket ever added is freed |
| SocketPort.AddAfterClose | src/wepoll.c:1444-1447 | a closed port without groups: adding a socket fails the assertion |
| IntrusiveQueue.OneRing | src/wepoll.c:1461-1518 | a link is in at most one queue |
| IntrusiveQueue.EnqueuedMeansShared | src/wepoll.c:1516-1518 | a link counts as enqueued exactly when its ring has another |
| IntrusiveQueue.Detach | src/wepoll.c:1470-1473 | only the neighbours change, and they close the ring |
| IntrusiveQueue.Queue.First | src/wepoll.c:1475-1477 | the first node, or null exactly for an empty queue |
| IntrusiveQueue.Queue.Last | src/wepoll.c:1479-1481 | the last node, or null exactly for an empty queue |
| IntrusiveQueue.Queue.IsEmpty | src/wepoll.c:1512-1514 | true exactly for an empty queue |
| IntrusiveQueue.Queue.Prepend | src/wepoll.c:1483-1488 | the sequence gains the node in front |
| IntrusiveQueue.Queue.Append | src/wepoll.c:1490-1495 | the sequence gains the node at the end |
| IntrusiveQueue.Queue.Remove | src/wepoll.c:1507-1510 | the sequence loses this node, which is then in no queue |
| IntrusiveQueue.Queue.MoveToStart | src/wepoll.c:1497-1500 | the node moves to the front, the others keep their order |
| IntrusiveQueue.Queue.MoveToEnd | src/wepoll.c:1502-1505 | the node moves to the end, the others keep their order |
| LinkedList.List.PushBack | src/ezgrpc2_list.c:37-55 | appends one element; front, back, links and count agree |
| LinkedList.List.PushFront | src/ezgrpc2_list.c:58-72 | prepends one element |
| LinkedList.List.PopBack | src/ezgrpc2_list.c:75-94 | takes the last element, or nothing from an empty list |
| LinkedList.List.PopFront | src/ezgrpc2_list.c:97-116 | takes the first element, or nothing from an empty list |
| LinkedList.List.PeekFront | src/ezgrpc2_list.c:166-169 | the first element, if any |
| LinkedList.List.PeekBack | src/ezgrpc2_list.c:171-174 | the last element, if any |
| LinkedList.List.Find | src/ezgrpc2_list.c:128-135 | the first match, if any |
| LinkedList.List.Remove | src/ezgrpc2_list.c:138-163 | takes out the first match and nothing else |
| LinkedList.List.ConcatAndEmpty | src/ezgrpc2_list.c:176-196 | the very nodes of the source are appended, and the source is a valid empty list |
| EventQueue.EventQueue.Write | src/ezgrpc2_events.c:22-32 | one event more at the end, or 1 and no change when a block cannot be had |
| EventQueue.EventQueue.Read | src/ezgrpc2_events.c:35-47 | the arrays read, followed by what is queued, are all events written; all blocks but the last are full; null exactly when nothing is queued |
| EventQueue.EventsSplit | src/ezgrpc2_events.c:22-47 | the queue is its full blocks followed by the filled part of the last |
| Wire.Be32Digits | src/internal_nghttp2_callbacks.c:116 | network order: a small length is the last byte, and another digit moves the others to the front |
| Wire.EncodeLayout | src/internal_nghttp2_callbacks.c:114-123 | a message on the wire is its flag, its length most significant byte first, and its data |
| Wire.FirstMessageLayout | src/internal_nghttp2_callbacks.c:36-48 | the length read is the place value of the four bytes after the flag, and the data is what follows |
| Wire.DecodeEncode | src/ezgrpc2_messages.c:18-38 | what was encoded is read back, whatever follows |
| Wire.EncodeDecode | src/ezgrpc2_messages.c:18-38 | any bytes are the messages read, encoded, and a residue without a whole message |
| Wire.MessagesConcat | src/internal_nghttp2_callbacks.c:488-494 | reading in two parts, carrying the residue over, is reading at once |
| MessageReader.Validate | src/ezgrpc2_messages.c:18-38 | the end exactly for non-empty data without residue, and the count of whole messages |
| MessageReader.NewReader | src/ezgrpc2_messages.c:83-93 | null exactly for empty data or a residue; otherwise a cursor before all messages |
| MessageReader.Reader.Next | src/ezgrpc2_messages.c:63-81 | the next message, or nothing exactly at the end of the data |
| MessageReader.Reader.Rewind | src/ezgrpc2_messages.c:55-57 | the cursor is before all messages again |
| MessageReader.ReadAll | src/ezgrpc2_messages.c:63-81 | repeated next gives exactly the messages ahead and ends at the end of the data |
| StreamEncoder.Stream.Send | src/ezgrpc2_session.c:99 | the stream takes over the messages, in order, and the sender's list is empty |
| StreamEncoder.SessionSend | src/ezgrpc2_session.c:82-116 | 1 or 2 exactly without session or stream, and then nothing changes; the assertion fails exactly if one of nghttp2's calls for data, before it fails, is stuck at an empty message; otherwise 3 exactly when nghttp2 fails, the messages are taken over and all bytes put out stay a prefix of their wire form |
| StreamEncoder.Stream.Read | src/internal_nghttp2_callbacks.c:61-130 | emitted bytes followed by owed bytes stay the wire form of all sent; EOF exactly when drained, else at most 4 bytes unused; a non-empty queue makes progress, to an exact place; the assertion fails exactly when an empty message is reached with room left |
| StreamEncoder.Stream.PutHeader | src/internal_nghttp2_callbacks.c:114-123 | five bytes of the first message: its flag, and the length with the most significant byte first |
| StreamEncoder.Stream.PutData | src/internal_nghttp2_callbacks.c:89-113 | as much of the rest of the first message as fits; it leaves the queue exactly when all fits |
| StreamEncoder.StuckNeedsEmpty | src/internal_nghttp2_callbacks.c:95 | a failing call has reached an empty message |
| StreamEncoder.EmptyMessageSticks | src/internal_nghttp2_callbacks.c:95 | one empty message in the queue: the call fails exactly with more than five bytes of room, or with any once its header is out |
| StreamEncoder.OwedMore | src/ezgrpc2_session.c:99 | sending more appends its wire form to what is owed |
| StreamEncoder.Drain | src/internal_nghttp2_callbacks.c:61-130 | with any buffer sizes of five or more the drain ends, and it fails exactly when a queued message is empty |
| StreamEncoder.RoundTrip | src/ezgrpc2_messages.c:18-93 | messages sent, drained and read with the reader come back as they were, unless one is empty |
| StreamReceiver.Parse | src/internal_nghttp2_callbacks.c:21-56 | the scan cuts and delivers what the specification says, as written or stepping over the data; the message list exists whenever something is pushed |
| StreamReceiver.SkippingIsWalking | src/internal_nghttp2_callbacks.c:29-53 | stepping over the data, the parser delivers the whole messages and leaves the residue |
| StreamReceiver.AsWrittenIsRightExactly | src/internal_nghttp2_callbacks.c:49-52 | as written it does that exactly when every whole message in the buffer is empty |
| StreamReceiver.AsWrittenGoesWrong | src/internal_nghttp2_callbacks.c:49-52 | a message of three bytes whose data is left in the buffer |
| StreamReceiver.Receiver.Chunk | src/internal_nghttp2_callbacks.c:605-634 | appends the chunk, or refuses it exactly when the window would be exceeded |
| StreamReceiver.Receiver.CutOff | src/internal_nghttp2_callbacks.c:486-506 | cut bytes followed by the buffer are all bytes received; the cut is within the buffer |
| StreamReceiver.Receiver.Frame | src/internal_nghttp2_callbacks.c:458-520 | exactly which events a frame writes: its messages if it completes any, nothing if it completes none and does not end the stream, and one terminal event, which is data loss exactly if bytes are left; all so far is delivered right exactly with the corrected advance, or when every whole message so far is empty |
| StreamReceiver.Shift | src/internal_nghttp2_callbacks.c:494 | the overlapping copy as a move |
| StreamReceiver.SkippingFitsExactly | src/internal_nghttp2_callbacks.c:605-634 | with the corrected advance a stream is refused exactly when some frame does not fit beside the residue of the bytes before it |
| StreamReceiver.Run | src/internal_nghttp2_callbacks.c:458-634 | for any split into chunks and frames and either advance: refused exactly when a frame comes to more than the window beside what is left, never if the stream fits as a whole; otherwise the events are exactly the news of the frames, no event but a last one empty; the whole messages of all bytes are reported, right exactly with the corrected advance or when all are empty |
| ThreadPool.StepInv | src/ezgrpc2_pthpool.c:42-84 | every critical section keeps: each task in one place, exact counts, nobody asleep with work to do, bounded overtaking |
| ThreadPool.TasksAreConserved | src/ezgrpc2_pthpool.c:42-84 | each added task is queued, held by one worker or completed, once; the queue is the rest in order; at most k-1 earlier tasks are unfinished when a task is |
| ThreadPool.EmptyMeansAllPolled | src/ezgrpc2_pthpool.c:115-123 | is_empty is true exactly when every task added has been polled |
| ThreadPool.SingleWorkerOrder | src/ezgrpc2_pthpool.c:42-84 | with one worker, polled, finished, held and queued are the tasks in order of submission |
| ThreadPool.NoLostWakeup | src/ezgrpc2_pthpool.c:49-62 | a waiting worker means an empty queue and no stop; with work or a stop every worker can go on |
| ThreadPool.WorkRunsOut | src/ezgrpc2_pthpool.c:42-84 | while nothing is added and the pool is not stopped, the steps of the workers are bounded by what there was to do and the spurious wakeups |
| ThreadPool.UnfinishedMeansWork | src/ezgrpc2_pthpool.c:49-62 | as long as an added task is not finished, some worker has a step of its own to take |
| ThreadPool.EveryTaskFinishes | src/ezgrpc2_pthpool.c:42-84 | from any point before the stop, the workers left to themselves finish every task added, within that bound |
| ThreadPool.WorkersRunOut | src/ezgrpc2_pthpool.c:186-193 | after the stop every step of a worker brings it nearer its exit, so the joins return |
| ThreadPool.Free | src/ezgrpc2_pthpool.c:199-221 | the cleanups called, in order: userdata of finished and queued tasks, results of finished ones, each as often as the task is there |
| ThreadPool.FreeFindsUnpolled | src/ezgrpc2_pthpool.c:199-221 | what free finds are exactly the tasks never polled |
| Sessions.Server.Add | src/internal_helpers.c:310-351 | a created connection gets in exactly if a slot is free, and into the first, which then polls the accepted descriptor, with one connect; otherwise nothing changes |
| SessionTable.ArrivesIfRoom | src/internal_helpers.c:145-150 | the slot given is free and all before it are taken |
| Sessions.Server.Drop | src/internal_helpers.c:159-178 | one disconnect, the slot zeroed, and no other slot touched |
| Sessions.Server.Find | src/internal_helpers.c:187-191 | the slot exactly for a handle whose session is connected, or the all-zero handle |
| Sessions.Server.UnusedSlot | src/internal_helpers.c:145-150 | the first free entry from 2 on, or -1 exactly when there is none |
| Sessions.Server.Serve | src/ezgrpc2_server.c:248-269 | which events are written for a slot, in order: nothing, one disconnect at a hang-up, or its messages and a disconnect if it closes; no other slot is touched |
| Sessions.Server.Poll | src/ezgrpc2_server.c:221-272 | connected afterwards are exactly those who were and neither hung up nor closed, and the accepted connections for which there was a slot |
| SessionTable.PollConnects | src/ezgrpc2_server.c:221-272 | the same of the tables as a value, with the tables and the log in order again |
| SessionTable.ArrivalsExactly | src/ezgrpc2_server.c:240-245 | a connection offered over IPv4 gets in if there is a slot, then one over IPv6 if one is left, and nobody else |
| SessionTable.PollLog | src/ezgrpc2_server.c:240-269 | the events of a poll: the connects of those who come, then for each slot in order a disconnect at a hang-up, or its messages and a disconnect if it closes |
| SessionTable.PollStores | src/ezgrpc2_server.c:240-269 | a poll keeps the descriptor of every session that stays and stores the accepted one of every session that comes |
| SessionTable.FoundMeansConnected | src/internal_helpers.c:187-191 | slot and handle agree exactly while the session is connected, also after slots are used again |
| SessionLog.EventsFollowConnect | src/internal_helpers.c:310-351 | every event of a session but its connect has the connect before it and no disconnect between |
| SessionLog.SilentAfterDisconnect | src/internal_helpers.c:159-178 | after its disconnect a session is never heard of again |
| SessionTable.RunFinds | src/internal_helpers.c:187-191 | after any run of polls with new uuids a handle is found exactly while its session is connected, or if it is the all-zero one |
| SessionTable.RunFollowsConnect | src/ezgrpc2_server.c:221-272 | in the events of any such run every event of a session lies between its connect and its disconnect |
| SessionTable.RunFallsSilent | src/ezgrpc2_server.c:221-272 | in any such run nothing is heard of a session after its disconnect |
| SessionTable.RunStores | src/internal_helpers.c:348 | after any such run the slot of every connected session polls the descriptor it was accepted with |
| SessionTable.RunListeners | src/ezgrpc2_server.c:189-199 | through any run the first two entries poll the listening sockets |
| Sessions.Run | src/ezgrpc2_server.c:221-272 | any sequence of polls, with uuids from a generator that never repeats, is such a run, and the server ends in its state with its events |

## Left out

- SocketPort.EpollPort.Free: the sock_state structs are records in a map from their addresses, so stores through two pointers to one struct are not distinguished; the queues are sequences, justified by IntrusiveQueue, and the socket tree is a map, justified by RedBlackTree.
- ThreadPool.Free: the task's result, its timeout flag and the failing allocation of a task are not modelled.
- Sessions.Server.Serve: closing the socket's file descriptor is not modelled (the hang-up branch of the code does not close it); nor are nghttp2's own session and the streams.
- StreamEncoder.SessionSend: what nghttp2 does in its send loop besides asking for data, and for which streams, is an input.
- RefLock.StepsRunOut: the work inside port_ctl and port_wait is one step that ends, and an epoll_wait without a time-out need not; that every call returns is proved only as far as those do.
- RefLock.PortIsSafe: memory order weaker than one total order of the interlocked operations.
- PollGroups.GroupQueue.Acquire: failing malloc and failing device creation are one answer, because both return NULL before anything changes.
- Calls of afd, IOCP and Winsock, error mapping, the time-out arithmetic and the array of port_wait: environment, answers are inputs.
- The stream's headers, method and content checks, status lines, trailers and settings: one-branch code.
- ezgrpc2_messages_peek, whose data offset differs from next by one byte, and ezgrpc2_server_unregister_path, which leaves a hole in the path table.
- src/thpool.c (the same loop without a list of finished tasks), src/ezgrpc2_ring.c (not built), the arena files (their read always gives NULL).
- Freeing of list, event and message memory.
