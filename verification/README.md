# sevent: a model in Dafny

sevent is an event-driven networking library in C++. It comes with wepoll, an emulation of epoll on Windows, and with
an HTTP parser, both in C. This project models the parts of it that carry an invariant, a protocol or a format, and
proves what they promise.

| modules | what they model |
|---|---|
| `WepollTree`, `WepollTreeShape`, `WepollTreeInsert`, `WepollTreeRemove`, `WepollTreeUnlink`, `WepollTreeHistory` | the intrusive red-black tree of wepoll: nodes with parent links that are relinked in place |
| `WepollQueue` | the intrusive queue: a ring through its head |
| `WepollReflock` | the life of a port handle under concurrent use and close: a reference count with a destroy bit, a lock, a keyed event; a state machine over the steps of any number of threads |
| `WepollSocket`, `WepollPort` | sockets, poll groups, queues and the kernel's outstanding polls behind epoll_ctl, epoll_wait and epoll_close |
| `HttpTypes`, `HttpStep`, `HttpRun` | the HTTP parser as an automaton over bytes |
| `HttpInvariant`, `HttpShape` | what holds of it on every input |
| `HttpBlocks`, `HttpMarks`, `HttpCounter`, `HttpRounds`, `HttpParser` | http_parser_execute as it is written, with inner loops, marks and batched counters, and that it does what the automaton does |
| `HttpChunked`, `HttpHeaders`, `HttpCoding`, `HttpTransfer` | lengths, chunks, header names and transfer codings |
| `HttpFirstLine`, `HttpFraming`, `HttpFramingCases` | where the body of a message ends, against RFC 7230 |
| `HttpUrl`, `HttpUrlText` | splitting URLs |
| `InetText`, `Inet`, `InetOps` | printing and parsing internet addresses |
| `BufferInts`, `Buffer`, `LengthHeaderCodec` | the byte buffer, and messages behind a length header |
| `TcpConnection`, `TimerManager`, `EventLoop`, `LogAsynAppender` | a connection, the timers and the task queue of a loop, and the asynchronous logger |
| `Bytes`, `Pieces`, `Wrappers` | small helpers |

Code that updates state in place is a class with the same fields; its methods have the branches and the order of the
C or C++ code and are proved against functions of the old state. Code that only computes is functions. What the kernel
and the sockets answer are parameters of the operations, so that every theorem holds for all answers; the kernel is only
taken to hand out each completion it owes once. Threads are modelled as interleavings of the steps that the code makes
atomic. Unsigned and 5-bit fields wrap around in the model where they do in C.

## Model

| member | source | states |
|---|---|---|
| `WepollTree.Tree.Add` | sevent/net/poller/wepoll/wepoll.c:2036-2069 | After an addition the tree is a red-black search tree again. The result is -1 exactly if the key is taken, and then nothing has changed, not even in the new node; otherwise exactly the pair (key, node) has been added. |
| `WepollTree.Tree.Delete` | sevent/net/poller/wepoll/wepoll.c:2096-2167 | A node of the tree, wherever it is, is taken out: exactly its entry disappears, every other node keeps its key, and the tree is a red-black search tree again. |
| `WepollTree.Tree.Find` | sevent/net/poller/wepoll/wepoll.c:2169-2180 | The node with the key is found if and only if there is one, and of n nodes the search looks at no more than 2 log2(n + 1). |
| `WepollTree.Tree.RebalanceAfterInsert` | sevent/net/poller/wepoll/wepoll.c:2057-2066 | From any state in which only one red node may have a red parent, the loop ends with a red-black tree of the same contents. |
| `WepollTree.Tree.RebalanceAfterRemove` | sevent/net/poller/wepoll/wepoll.c:2071-2094 | From any state in which the paths through one place lack one black node, the loop ends with a red-black tree of the same contents. |
| `WepollTree.Tree.RotateLeft` | sevent/net/poller/wepoll/wepoll.c:1980-2003 | The pointers after a rotation are those of the old ones with exactly the rotated edge, the inner subtree and the link from above changed. |
| `WepollTree.Tree.RotateRight` | sevent/net/poller/wepoll/wepoll.c:1980-2007 | The same for the mirrored rotation. |
| `WepollTreeShape.HeightIsLogarithmic` | sevent/net/poller/wepoll/wepoll.c:2169-2180 | Every red-black tree of n nodes has a height of at most 2 log2(n + 1). |
| `WepollTreeHistory.History` | sevent/net/poller/wepoll/wepoll.c:2036-2167 | Any history of additions and deletions from any red-black tree leaves a red-black tree with exactly the entries that the history leaves in a set. |
| `WepollTreeHistory.Perform` | sevent/net/poller/wepoll/wepoll.c:2036-2167 | One operation of a history does to the tree what it does to the set of entries, and touches no node but those of the tree and its own. |
| `WepollTreeHistory.ContentsAreMap` | sevent/net/poller/wepoll/wepoll.c:2036-2069 | The entries of a red-black tree are a one-to-one map from keys to nodes, with no node that is not in use. |
| `WepollQueue.Queue.Append` | sevent/net/poller/wepoll/wepoll.c:1490-1495 | The node that was in no queue is the last one afterwards; the others keep their order. |
| `WepollQueue.Queue.Prepend` | sevent/net/poller/wepoll/wepoll.c:1483-1488 | The node that was in no queue is the first one afterwards; the others keep their order. |
| `WepollQueue.Queue.Remove` | sevent/net/poller/wepoll/wepoll.c:1507-1510 | The node is in no queue afterwards, and the others keep their order. |
| `WepollQueue.Queue.MoveToStart` | sevent/net/poller/wepoll/wepoll.c:1497-1500 | The node is the first one afterwards; the others keep their order. |
| `WepollQueue.Queue.MoveToEnd` | sevent/net/poller/wepoll/wepoll.c:1502-1505 | The node is the last one afterwards; the others keep their order. |
| `WepollQueue.Queue.IsEnqueued` | sevent/net/poller/wepoll/wepoll.c:1516-1518 | The links of a node tell exactly whether it is in the queue. |
| `WepollQueue.Queue.Request` | sevent/net/poller/wepoll/wepoll.c:1412-1418 | A socket is enqueued at most once, however often an update is requested. |
| `WepollQueue.Queue.Cancel` | sevent/net/poller/wepoll/wepoll.c:1420-1426 | Afterwards the socket is not in the queue, whether it was before or not. |
| `WepollReflock.RunSafe` | sevent/net/poller/wepoll/wepoll.c:1554-1585 | On every run of any threads: no thread touches the port once it has been freed; the thread that deletes it is alone; the exchange with POISON finds exactly DESTROY; who signals has a waiting closer; signalling and deleting happen at most once. |
| `WepollReflock.RunAssertions` | sevent/net/poller/wepoll/wepoll.c:1554-1585 | On every run, no assertion of the three reference operations fails. |
| `WepollReflock.NoDeadlock` | sevent/net/poller/wepoll/wepoll.c:1540-1552 | In every reachable state with a call under way, some thread can take a step. |
| `WepollReflock.NoNewHolders` | sevent/net/poller/wepoll/wepoll.c:1934-1970 | Once the closer waits, no thread obtains a new reference: what it waits for only shrinks. |
| `WepollReflock.StepWorks` | sevent/net/poller/wepoll/wepoll.c:591-681 | Every step of a call strictly decreases a measure of the work left, so that no schedule goes on for ever without new calls. |
| `WepollReflock.AllReturn` | sevent/net/poller/wepoll/wepoll.c:591-681 | From every reachable state a schedule without new calls leads, in no more steps than the work left, to a state in which every call has returned. |
| `WepollReflock.QuietState` | sevent/net/poller/wepoll/wepoll.c:591-614 | When no call is under way, the port is open and unreferenced, or it has been deleted exactly once. |
| `WepollSocket.MaskRoundTrip` | sevent/net/poller/wepoll/wepoll.c:1730-1770 | For every event mask, each known event that was asked for, except EPOLLMSG, is among those that the kernel poll for it can report. |
| `WepollSocket.PollsWhatIsReported` | sevent/net/poller/wepoll/wepoll.c:1730-1770 | For every mask with EPOLLERR the poll is for exactly those events of the kernel whose report has something in common with the mask, and for the close of the socket. |
| `WepollSocket.TotalIsSockets` | sevent/net/poller/wepoll/wepoll.c:994-1024 | The sizes of the poll groups add up to the number of sockets. |
| `WepollPort.Port.Acquire` | sevent/net/poller/wepoll/wepoll.c:994-1012 | A socket gets a group with room; a new group is made exactly if no group has room; on a closed port without room the assertion about the completion port fails. |
| `WepollPort.Port.SockNew` | sevent/net/poller/wepoll/wepoll.c:1635-1674 | A record is made exactly if the handle is good, there is memory, the socket is not registered yet, and there is room or a group can be made; otherwise sockets and tree are unchanged. |
| `WepollPort.Port.SockDelete` | sevent/net/poller/wepoll/wepoll.c:1676-1703 | A record whose poll is still due is kept, marked and out of the tree; any other is freed, and none is freed twice. |
| `WepollPort.Port.SetEvent` | sevent/net/poller/wepoll/wepoll.c:1713-1728 | The record has the new mask and data, and either its poll covers every event asked for or an update is due. |
| `WepollPort.Port.SockUpdate` | sevent/net/poller/wepoll/wepoll.c:1772-1832 | An update fails only if the kernel refuses; after it the socket is watched for all it asks for, or was dropped because it turned out closed. |
| `WepollPort.Port.FeedEvent` | sevent/net/poller/wepoll/wepoll.c:1834-1887 | The completion of a poll frees a deleted or closed socket, and otherwise reports exactly the events that happened and were asked for, once, with an update due; EPOLLONESHOT clears the mask only when it reports. |
| `WepollPort.ReportsAskedFor` | sevent/net/poller/wepoll/wepoll.c:1834-1887 | Every report is about something, and only about what was asked for. |
| `WepollPort.Port.UpdateEvents` | sevent/net/poller/wepoll/wepoll.c:1168-1184 | The queue is worked off unless the kernel refuses, and then every socket is watched; every socket survives with its registration, or was freed because it turned out closed. |
| `WepollPort.Port.CtlAdd` | sevent/net/poller/wepoll/wepoll.c:1319-1334 | Exact conditions for success and for the failing assertion; on success the socket is registered with the mask and data asked for, or was freed because it turned out closed; on failure nothing has changed but perhaps the groups. |
| `WepollPort.Port.CtlMod` | sevent/net/poller/wepoll/wepoll.c:1336-1349 | Succeeds exactly if the socket is registered; then its mask and data are the new ones, or it was freed because it turned out closed; otherwise nothing has changed. |
| `WepollPort.Port.CtlDel` | sevent/net/poller/wepoll/wepoll.c:1351-1359 | Succeeds exactly if the socket is registered, which it is no longer afterwards; its record is freed now if no poll is due, and otherwise kept until the poll ends. |
| `WepollPort.Port.PollBegin` | sevent/net/poller/wepoll/wepoll.c:1209-1235 | When the lock is given up for the wait, no update is due and every socket is watched for all it asks for. |
| `WepollPort.Port.PollEnd` | sevent/net/poller/wepoll/wepoll.c:1191-1239 | The reports are those about the completions handed out, in their order, at most one for each, and none for a deleted or closed socket. |
| `WepollPort.Port.Serve` | sevent/net/poller/wepoll/wepoll.c:1241-1388 | Any sequence of calls, on an open or a closed port, with every wait in rounds and the updates at its end, keeps the invariant: no record is freed while its poll is due, none twice, no interest is lost. The number of groups never exceeds what the peak of live sockets plus one needs, and stays within what the peak needs exactly if no vain addition has left a spare group. |
| `WepollPort.Port.Delete` | sevent/net/poller/wepoll/wepoll.c:1137-1166 | On a closed port deletion ends, its assertions hold, and every record that was ever made has been freed exactly once. |
| `WepollPort.Lifetime` | sevent/net/poller/wepoll/wepoll.c:591-614 | A whole life of a port, with calls that get the lock before and after the close: unless an addition with a good handle fails the assertion, deletion ends with everything freed once. |
| `WepollPort.LateAddExample` | sevent/net/poller/wepoll/wepoll.c:1444-1447 | The assertion about the completion port does fail: for an addition to a port that has just been closed. |
| `WepollPort.AdditionKeepsBound` | sevent/net/poller/wepoll/wepoll.c:1635-1674 | From a port within the bound by the peak of live sockets, one addition keeps it exactly if it succeeds or makes no new group. |
| `WepollPort.VainAddGrows` | sevent/net/poller/wepoll/wepoll.c:994-1012 | A group that is made when all are full, for a socket that then is not added, is one more than the peak of live sockets needs. |
| `WepollPort.BoundIffNoSpare` | sevent/net/poller/wepoll/wepoll.c:994-1012 | The number of groups is within what the peak of live sockets needs exactly if there is no spare group, and never off by more than one socket. |
| `WepollPort.SpareExactly` | sevent/net/poller/wepoll/wepoll.c:994-1024 | After any run there is a spare group exactly if some addition failed after making a group, and the peak of that time has not been passed since. |
| `WepollPort.VainAddExample` | sevent/net/poller/wepoll/wepoll.c:1635-1674 | 32 sockets, and one of them added again: two groups, where the peak needs one. |
| `HttpInvariant.RunSafe` | sevent/net/http/http-parser/http_parser.c:641-2157 | For every input from a sane state: no assertion of the parser fails, and the state stays sane (indices inside the names they are compared with, lengths distinguishable from absent, chunk states only for chunked messages). |
| `HttpParser.HttpParser.Execute` | sevent/net/http/http-parser/http_parser.c:641-2157 | One call, with its block scans, marks and batched counters, ends in the state and with the callbacks of the byte-by-byte automaton, or with its error at the same byte. If byte by byte the header limit is passed, the call fails too, unless the 32-bit counter can wrap in the piece; and a piece that is all one field name is accepted exactly if the count of its bytes, modulo 2^32, is within the limit. |
| `HttpRounds.LimitMissed` | sevent/net/http/http-parser/http_parser.c:1256-1391 | Byte by byte a field name passes the limit exactly if it is too long; so the code misses the limit only with a counter that has reached 2^32, and for a piece that is all one name it does exactly if the count modulo 2^32 is within the limit. |
| `HttpCounter.RunCounts` | sevent/net/http/http-parser/http_parser.c:641-2157 | On every run the counter grows by no more than one for each byte. |
| `HttpParser.HttpParser.ExecuteAll` | sevent/net/http/http-parser/http_parser.c:641-2157 | However an input that is accepted is cut into pieces, the parser ends in the same state, and the callbacks deliver the same bytes and notifications. |
| `HttpParser.HttpParser.AtEof` | sevent/net/http/http-parser/http_parser.c:664-690 | The end of the connection is accepted exactly in the states between messages and in a body that lasts until then, which it completes. |
| `HttpParser.HttpParser.ScanField` | sevent/net/http/http-parser/http_parser.c:1256-1391 | The inner loop over a field name stops at the first byte that is no token, in the state of the byte-by-byte automaton. |
| `HttpParser.HttpParser.ScanValue` | sevent/net/http/http-parser/http_parser.c:1482-1706 | The inner loops over a value stop at the line end or at the byte that is refused, in the state of the byte-by-byte automaton, or the header limit has been passed. |
| `HttpChunked.ContentLengthValue` | sevent/net/http/http-parser/http_parser.c:1436-1570 | A Content-Length of digits is accepted exactly if the number before the last digit passes the guard; then it is the decimal value, without wrap-around, and never the value that means absent. |
| `HttpChunked.LengthAccepted` | sevent/net/http/http-parser/http_parser.c:1436-1575 | Whatever the bytes of a Content-Length value: accepted are exactly a number and spaces behind it, and the length is that number. |
| `HttpChunked.ChunkSizeRead` | sevent/net/http/http-parser/http_parser.c:1996-2046 | A chunk size is accepted exactly if every byte counts as a digit and the number before the last one passes the guard; otherwise the errno is that of a bad size or length. |
| `HttpChunked.SizeIsHexadecimal` | sevent/net/http/http-parser/http_parser.c:2013-2046 | An accepted chunk size is the hexadecimal value of its bytes if and only if all of them are below 128; in any case it is the value with every other byte read as a zero, and never the value that means absent. |
| `HttpChunked.ChunkSizeValue` | sevent/net/http/http-parser/http_parser.c:2013-2046 | Hexadecimal digits of either case are read as the number they stand for, exactly up to the guard. |
| `HttpChunked.StrayByteIsZeroDigit` | sevent/net/http/http-parser/http_parser.c:224-241 | The size "1", byte 255 is accepted, as 16. |
| `HttpChunked.SecondSize` | sevent/net/http/http-parser/http_parser.c:1996-2116 | Behind any whole chunk the next size is read afresh. |
| `HttpChunked.ChunkedRoundTrip` | sevent/net/http/http-parser/http_parser.c:1996-2116 | Any chunks, with any extensions, encoded by section 4.1 of RFC 7230, are delivered as the data that was encoded, with one message-complete, at the end. |
| `HttpChunked.FeedChunked` | sevent/net/http/http-parser/http_parser.c:1996-2116 | The same through the parser itself, however the encoding is cut into pieces. |
| `HttpHeaders.NamesRecognized` | sevent/net/http/http-parser/http_parser.c:1206-1391 | For every token as a name: a header is taken for Content-Length, Transfer-Encoding, Connection or Upgrade exactly if that is its name in letters of either case; uses_transfer_encoding is set for every name that begins with transfer-encoding. |
| `HttpFraming.HeadRead` | sevent/net/http/http-parser/http_parser.c:1206-1793 | From the first byte of the header fields to the CR of the empty line: any list of fields is read as a description over names and values says (whether a name begins with transfer-encoding, whether some transfer coding is recognized, which length is given), and it is refused exactly if that says so. |
| `HttpFraming.DecisionIsRfc` | sevent/net/http/http-parser/http_parser.c:1795-1942 | For every kind, status and list of fields, what follows from them is a framing that section 3.3.3 of RFC 7230 allows if and only if: a status without a body comes with nothing that announces one; a transfer coding is recognized in some field exactly if the last coding of all the fields joined is chunked; no other name goes on behind transfer-encoding; and a length that is not refused with reason is one that the parser reads. |
| `HttpFraming.FramingOnRuns` | sevent/net/http/http-parser/http_parser.c:1206-1942 | The same for every message on every run from http_parser_init, from the line feed of its first line on: the way in which the parser looks for the end of the body is the one above, so that it is allowed by the RFC if and only if the message meets that condition; and a body in chunks starts in the state from which chunks are decoded. |
| `HttpFraming.NoSwitch` | sevent/net/http/http-parser/http_parser.c:1795-1860 | A message without a field named Upgrade, and with another method than CONNECT, is one that the theorem before is about. |
| `HttpFirstLine.RunStarted` | sevent/net/http/http-parser/http_parser.c:710-1204 | On every run, when a first line ends no flag, length or coding of an earlier message is left, and it is known whether the message is a request or a response. |
| `HttpFramingCases.StatusRead` | sevent/net/http/http-parser/http_parser.c:769-925 | Every status line of three digits is read from http_parser_init with that status. |
| `HttpFramingCases.AnnouncedLength` | sevent/net/http/http-parser/http_parser.c:1874-1942 | Any response of status 1xx, 204 or 304 with a length above zero, read from its first byte: the parser waits for a body of that length, where the RFC allows none. |
| `HttpFramingCases.LongerName` | sevent/net/http/http-parser/http_parser.c:1333-1350 | Any request with one field whose name goes on behind transfer-encoding is refused, where the RFC says that it has no body. |
| `HttpFramingCases.MissedCoding` | sevent/net/http/http-parser/http_parser.c:1597-1612 | Any request with two codings of which the second is chunked and the first a beginning of that word is refused, where the RFC says that the body is in chunks. |
| `HttpFramingCases.LaterCoding` | sevent/net/http/http-parser/http_parser.c:1719-1750 | Any request with one field that is recognized, and a second one whose coding is not chunked, is read in chunks, where the RFC says that it must be refused. |
| `HttpFramingCases.UnreadLength` | sevent/net/http/http-parser/http_parser.c:1436-1575 | Any request with a length of the RFC that the parser does not read, as one with a tab behind it, is refused, where the RFC says that the body has that length. |
| `HttpFramingCases.MessageOfEachKind` | sevent/net/http/http-parser/http_parser.c:1206-1942 | One message of each of these five kinds, byte by byte: for instance status 304 with a length of 5. |
| `HttpCoding.RunCoded` | sevent/net/http/http-parser/http_parser.c:1333-1350 | On every run, a message is chunked only if a Transfer-Encoding header has been seen. |
| `HttpTransfer.ChunkedByHeader` | sevent/net/http/http-parser/http_parser.c:1719-1750 | After a Transfer-Encoding header with any value on one line, the message is chunked exactly if it was before or the value is recognized as a list that ends in chunked. |
| `HttpTransfer.RecognizedExactly` | sevent/net/http/http-parser/http_parser.c:1578-1612 | For every value, the automaton ends as recognizing chunked exactly if the list of its elements says so. |
| `HttpTransfer.RecognizedIsChunked` | sevent/net/http/http-parser/http_parser.c:1578-1612 | What is recognized is, by sections 3.3.1 and 7 of RFC 7230, a list whose last coding is chunked. |
| `HttpTransfer.OrdinaryLists` | sevent/net/http/http-parser/http_parser.c:1578-1612 | Behind any elements that begin with a token and are no beginning of the word chunked, the parser looks at the next element. |
| `HttpTransfer.TwoCodings` | sevent/net/http/http-parser/http_parser.c:1597-1612 | Of two codings the second, chunked, is overlooked exactly if the first is a beginning of the word chunked, or all of it. |
| `HttpTransfer.TabDeafens` | sevent/net/http/http-parser/http_parser.c:1578-1594 | Behind a comma and a horizontal tab, chunked is not recognized, although RFC 7230 allows the tab. |
| `HttpUrl.ParseUrl` | sevent/net/http/http-parser/http_parser.c:2423-2543 | For every input: accepted or not, it is what the two automata say, and no field reaches outside the input; with CONNECT there are exactly host and port. For inputs below 65536 bytes, moreover, the fields of an accepted URL are disjoint, in order and at their delimiters, and the port is the number written. |
| `HttpUrl.ParseHost` | sevent/net/http/http-parser/http_parser.c:2335-2415 | For inputs below 65536 bytes, the host region is divided into user information, host and port, which tile it at their delimiters; for every input, no other field changes. |
| `HttpUrl.ReadPort` | sevent/net/http/http-parser/http_parser.c:2515-2540 | A port of digits is accepted exactly if its value is at most 65535, and is that value. |
| `HttpUrlText.UrlRoundTrip` | sevent/net/http/http-parser/http_parser.c:2423-2543 | Every URL with parts of the right characters, written down in any of the three forms, is split into exactly those parts, with its port. |
| `Inet.RoundTrip4` | sevent/net/SocketsOpsWin.cpp:26-43 | Printing an IPv4 address and parsing the text gives the address back; the text has at most 15 characters. |
| `Inet.RoundTrip6` | sevent/net/SocketsOpsWin.cpp:44-215 | Printing and parsing is the identity on all IPv6 addresses, whichever run of zeros is left out, with and without an embedded IPv4 address. |
| `Inet.TextLength` | sevent/net/SocketsOpsWin.cpp:141-215 | The text of an IPv6 address never has more than 39 characters, so that it fits the local buffer. |
| `InetOps.FindGap` | sevent/net/SocketsOpsWin.cpp:170-188 | The first loop finds the first longest run of zero words, or that no two zero words are neighbours. |
| `InetOps.Ntop6` | sevent/net/SocketsOpsWin.cpp:141-215 | The destination gets the text with the first longest run of zeros left out, or nothing if it is too short. |
| `InetOps.Pton6` | sevent/net/SocketsOpsWin.cpp:44-126 | The loops over the array, with the gap moved in place, accept exactly what the grammar accepts, and store its value: the words read back from the bytes are the words parsed. On failure the destination is unchanged. |
| `InetOps.PrintThenParse` | sevent/net/SocketsOpsWin.cpp:26-215 | Printing any IPv6 address into a buffer and parsing it stores the same sixteen bytes. |
| `Buffer.EnsureSpaceWorks` | sevent/net/Buffer.cpp:105-118 | ensureSpace leaves enough room inside the vector if and only if there is room already, or the room in front and behind is eight bytes at least. |
| `Buffer.EnsureSpaceFails` | sevent/net/Buffer.cpp:105-118 | In a vector of 1032 bytes with the reading position at 4 and the writing position at its end, one more byte does not fit. |
| `Buffer.Buffer.EnsureSpace` | sevent/net/Buffer.cpp:105-118 | In every state: there is room afterwards exactly if the condition for it holds, with the same readable bytes, and the vector has grown exactly if compacting would not do. |
| `Buffer.Buffer.Append` | sevent/net/Buffer.cpp:90-95 | In every state: exactly if room can be made, the readable bytes are the old ones and the data behind them. |
| `Buffer.Buffer.Prepend` | sevent/net/Buffer.cpp:97-103 | As much of the data as there is room for stands in front of the old bytes. |
| `Buffer.Buffer.Retrieve` | sevent/net/Buffer.cpp:54-60 | Exactly the first len readable bytes are gone, or all of them. |
| `Buffer.Buffer.ReadFd` | sevent/net/Buffer.cpp:14-45 | Whatever the socket had, up to 64 kilobytes more than there is room for, is appended to the readable bytes; it fails exactly if what is too much for the vector comes while the reading position is below eight. |
| `Buffer.Buffer.WriteFd` | sevent/net/Buffer.cpp:47-52 | Exactly what the socket has taken is gone from the front. |
| `Buffer.Buffer.ReadAsString` | sevent/net/Buffer.cpp:127-134 | The string and what remains make up the old contents. |
| `Buffer.Buffer.ShrinkToFit` | sevent/net/Buffer.cpp:79-88 | The contents stay, in a vector of their own size or the initial one. |
| `Buffer.Buffer.Swap` | sevent/net/Buffer.cpp:74-77 | The two buffers have exchanged their contents and vectors. |
| `Buffer.Buffer.FindEOL` | sevent/net/Buffer.cpp:142-151 | The first line feed from the given place on, or none if there is none. |
| `Buffer.Buffer.FindCRLF` | sevent/net/Buffer.cpp:153-161 | The first CR LF, or none if there is none. |
| `Buffer.Buffer.ReadInt` | sevent/net/Buffer.cpp:184-203 | The integer read, written in network byte order in front of what remains, is the old contents, if there are bytes enough; otherwise it is made of the bytes of the vector from the reading position on, and nothing remains. |
| `Buffer.Buffer.PrependInt` | sevent/net/Buffer.cpp:221-235 | As many of the bytes of the integer in network byte order as there is room for stand in front of the old contents: all of them if the room in front is at least its width. |
| `BufferInts.NetRoundTrip` | sevent/net/Buffer.cpp:163-235 | Writing and reading an integer of any width are inverse to each other, for negative numbers as well. |
| `LengthHeaderCodec.FramingRoundTrip` | examples/chat/LengthHeaderCodec.h:12-36 | Any messages of up to 65536 bytes, encoded one behind the other and cut into any fragments, are decoded as they were, with nothing left over. |
| `LengthHeaderCodec.FeedIsDecode` | examples/chat/LengthHeaderCodec.h:20-36 | How a stream is cut into fragments makes no difference to the messages, up to a refused length. |
| `LengthHeaderCodec.Receiver.OnMessage` | examples/chat/LengthHeaderCodec.h:20-36 | One call delivers exactly the whole messages in the buffer, leaves exactly the rest, and shuts the connection down once if the next length is refused. |
| `LengthHeaderCodec.Receiver.Receive` | examples/chat/LengthHeaderCodec.h:20-36 | Fragments that arrive one after the other in the byte buffer deliver exactly the messages that were sent. |
| `LengthHeaderCodec.Send` | examples/chat/LengthHeaderCodec.h:12-17 | The buffer that is sent has the encoded message, from position 4 on; room for n more bytes can be made in it exactly if the message has at most 1020 bytes, or the vector has n bytes left. |
| `LengthHeaderCodec.SendFills` | examples/chat/LengthHeaderCodec.h:12-17 | A message of 1024 bytes leaves a buffer of 1032 bytes, positions 4 and 1032, in which no room can be made. |
| `TcpConnection.TcpConnection.SendInLoop` | sevent/net/TcpConnection.cpp:148-186 | What the socket takes and what is buffered make up the data, behind what was waiting; after a fatal error the rest is dropped; the callbacks come exactly when they should; and after the writing side has been shut down the data is accepted, but none of it reaches the socket. |
| `TcpConnection.TcpConnection.HandleWrite` | sevent/net/TcpConnection.cpp:271-301 | What the socket takes leaves the buffer in order; the shutdown that waited for an empty buffer happens then, when all has been written; any error of the write closes the connection, and so does whatever waits after the shutdown. |
| `TcpConnection.TcpConnection.Shutdown` | sevent/net/TcpConnection.cpp:226-241 | From connected only, and the writing side is shut down at once exactly if nothing is waiting. |
| `TcpConnection.TcpConnection.ForceClose` | sevent/net/TcpConnection.cpp:346-368 | An open connection is closed with its descriptor; any other is left alone. |
| `TcpConnection.TcpConnection.Drive` | sevent/net/TcpConnection.cpp:32-368 | Any sequence of calls and events, queued sends included: the states only go forward; what the socket has got is a prefix of what was accepted, unless a send failed; the writing side is shut down at most once; nothing reaches the socket after that, and, if no send had failed before, everything accepted has reached it exactly if nothing was accepted after the shutdown. |
| `TcpConnection.TcpConnection.Step` | sevent/net/TcpConnection.cpp:32-368 | One call, event or queued send keeps all that, and never leads back to an earlier state; data is accepted after the shutdown only by a queued send. |
| `TcpConnection.TcpConnection.Destroy` | sevent/net/TcpConnection.cpp:24-31 | At the end the connection is out of the poller, and its descriptor is closed, by the destructor exactly if not before. |
| `TcpConnection.Life` | sevent/net/TcpConnection.cpp:17-368 | A whole life, whatever happens in it: at the end the descriptor has been closed, once, after the connection had left the poller, and the writing side has been shut down at most once. |
| `TcpConnection.LateSend` | sevent/net/TcpConnection.cpp:148-186 | A send that was queued by another thread and runs after the shutdown: its data is accepted and lost, whatever the socket answers; dropped at once after EPIPE, and after another error buffered until the next write callback closes the connection. |
| `TcpConnection.StoryOrder` | sevent/net/TcpConnection.cpp:243-368 | Every event happens at most once, and in order: the poller is left before the descriptor is closed, and nothing is shut down after the close. |
| `TimerManager.LessIsStrictOrder` | sevent/net/Timer.cpp:21-34 | The comparator is a strict order, total on different timers, as the ordered set demands. |
| `TimerManager.TimespecSplit` | sevent/net/TimerfdChannel.cpp:27-42 | The split of the delay is exact and in range, never the pair of zeros that would disarm, and leads to the expiry or 100 microseconds from now. |
| `TimerManager.TimerManager.AddTimer` | sevent/net/TimerManager.cpp:37-47 | The timer is in the set, in order, and the kernel timer is still armed for the earliest. |
| `TimerManager.TimerManager.CancelTimer` | sevent/net/TimerManager.cpp:53-63 | Has an effect exactly if the timer is in the set, which it then never is again. |
| `TimerManager.TimerManager.GetExpired` | sevent/net/TimerManager.cpp:74-84 | What is taken and what stays make up the set, in order; nothing that is due before now stays, and nothing that is due later is taken. |
| `TimerManager.TimerManager.ResetTimers` | sevent/net/TimerManager.cpp:86-100 | Exactly the repeating timers of the batch are back, one interval from now, and the kernel timer is armed for the earliest of all. |
| `TimerManager.TimerManager.HandleExpired` | sevent/net/TimerManager.cpp:65-72 | Everything that is due runs once, in order, whatever the callbacks add and cancel. |
| `TimerManager.TimerManager.Drive` | sevent/net/TimerManager.cpp:30-112 | On every run the kernel timer is armed for the earliest timer, one-shot timers run at most once, and a timer that was cancelled while it was in the set never runs again. |
| `TimerManager.CancelFromOwnCallback` | sevent/net/TimerManager.cpp:53-63 | A repeating timer that cancels itself from its own callback goes on. |
| `EventLoop.NoLostWakeup` | sevent/net/EventLoop.cpp:37-104 | On every run of any threads: a loop that is asleep, with no wakeup there or on its way, has nothing in its queue but tasks that its own thread queued before loop(), and no quit. |
| `EventLoop.EarlyTasksAreStuck` | sevent/net/EventLoop.cpp:79-88 | And those do not wake it: whichever tasks the owner thread queues before loop(), the loop falls asleep on them. |
| `EventLoop.WakeEndsPoll` | sevent/net/WakeupChannel.cpp:38-65 | A wakeup that some thread still has to do makes poll return. |
| `EventLoop.ExactlyOnceInOrder` | sevent/net/EventLoop.cpp:79-104 | On every run, what has been executed, the batch and the queue are together what was queued, in its order. |
| `EventLoop.RunsInLaterBatch` | sevent/net/EventLoop.cpp:90-104 | A task that is queued while a batch runs is executed in a later batch. |
| `EventLoop.BornNow` | sevent/net/EventLoop.cpp:79-88 | Whoever queues it, a task is behind all others, and known to be early exactly if the owner thread queues it before loop(). |
| `LogAsynAppender.LogAsynAppender.Append` | sevent/base/LogAsynAppender.cpp:11-26 | In every state the message is kept, behind all earlier ones, exactly if it has less than 4000000 bytes. |
| `LogAsynAppender.LogAsynAppender.Collect` | sevent/base/LogAsynAppender.cpp:31-52 | The writing thread takes everything that waits, in order, and leaves an empty current buffer; or takes nothing after a wait without messages. |
| `LogAsynAppender.LogAsynAppender.DropExcess` | sevent/base/LogAsynAppender.cpp:55-64 | Buffers are dropped, with one notice, exactly if more than the limit have been taken; the first two are always kept. |
| `LogAsynAppender.LogAsynAppender.Restore` | sevent/base/LogAsynAppender.cpp:69-81 | Both spare buffers are there again at the top of the loop, whatever has been taken and dropped. |
| `LogAsynAppender.LogAsynAppender.Interleave` | sevent/base/LogAsynAppender.cpp:11-85 | For any interleaving of appending threads with the steps of the writing thread: what has been written, dropped, taken and still waits is together what was appended, in order, and the file has exactly what was not dropped. |
| `LogAsynAppender.LogAsynAppender.Stop` | sevent/base/LogAsynAppender.cpp:91-95 | What is lost at the end is exactly what still waits; if there is nothing, and nothing was dropped, the file has everything that was appended. |
| `LogAsynAppender.BigMessageLost` | sevent/base/FixedBuffer.h:13-18 | FixedBuffer::append of 4000000 bytes or more changes nothing, whatever the buffer holds, an empty one included; of fewer it keeps them in an empty buffer. |

## Findings

Promises that the code does not keep, each with an instance of it and the exact condition.

- The buffer (`EnsureSpaceFails`, `EnsureSpaceWorks`): when the room in front and behind is less than eight bytes, a
  subtraction of unsigned numbers wraps around, and ensureSpace does not make room. Every message of more than 1020
  bytes with a length header in front of it is sent in a buffer of that kind (`Send`, `SendFills`), which a socket
  that takes nothing leaves as the output buffer of the connection.
- Chunk sizes (`StrayByteIsZeroDigit`, `SizeIsHexadecimal`): the table of digit values ends at byte 127, so that every
  byte from 128 on counts as a zero digit. A size is read right exactly if it has no such byte.
- Transfer codings (`TwoCodings`, `TabDeafens`, `RecognizedExactly`): a coding that is a beginning of the word
  chunked, such as "c", makes the parser miss the comma behind it, and with it the next coding; and since the test for
  a tab comes after the byte has been put in lower case, a tab behind a comma makes it overlook the rest of the list.
  What is recognized is always right (`RecognizedIsChunked`). A second header does not take back what the first has
  set (`ChunkedByHeader`).
- Header names (`NamesRecognized`): every name that begins with transfer-encoding sets uses_transfer_encoding.
- Body framing (`FramingOnRuns`, `DecisionIsRfc`): it is other than section 3.3.3 of RFC 7230 allows in five ways, and
  no others: a response with a status that has no body, but with a transfer coding or a length, is taken to have one,
  or is refused (`AnnouncedLength`); a name that goes on behind transfer-encoding makes a request, or a message with a
  length, be refused (`LongerName`); a last coding that is chunked can be overlooked (`MissedCoding`); chunked in one
  field prevails over another last coding in a later field (`LaterCoding`); and a length with a tab behind it is
  refused (`UnreadLength`). `MessageOfEachKind` has a message of each kind.
- The header limit (`Execute`, `LimitMissed`): the code counts whole blocks, in 32 bits; it notices every excess as
  long as the counter does not wrap, and misses it for a name of 2^32 bytes in one piece.
- Poll groups (`VainAddExample`, `AdditionKeepsBound`, `SpareExactly`): an addition that fails after all groups were
  full leaves a group behind, so that the number of groups exceeds what the peak of live sockets needs; it does so
  exactly until that peak is passed.
- A closed port (`LateAddExample`, `CtlAdd`): an addition that gets the lock after port_close, and finds no room,
  fails the assertion about the completion port; it does exactly then, if the handle is good.
- Tasks (`EarlyTasksAreStuck`, `NoLostWakeup`): tasks that the owner thread queues before loop() do not wake it; they
  are the only ones.
- Sends (`LateSend`, `Drive`): a send that another thread has queued, and that runs after the writing side has been
  shut down, is accepted although its data can no longer be sent. If no send failed before the shutdown, that is the
  only loss.
- Writes (`HandleWrite`): in the write callback EAGAIN, too, closes the connection, unlike in send.
- Timers (`CancelFromOwnCallback`, `CancelTimer`): a timer in the batch that is being run cannot be cancelled.
- The logger (`BigMessageLost`, `Stop`): a message of 4000000 bytes or more is dropped in silence, and what waits when
  the logger is stopped is never written.

## Left out

- HttpParser.HttpParser.Execute: runs that fail are only modelled up to the error and the byte at which it occurs, not
  the callbacks and fields they leave behind; runs that exceed the header limit fail, but possibly with another error
  and at another byte than the automaton does, because the code counts whole blocks; and of pieces in which the 32-bit
  counter can wrap only those that are all one field name are decided.
- HttpParser.HttpParser.ExecuteAll: pieces are not empty, since an empty one announces the end of the connection
  (`AtEof`); runs that stop for an upgrade are covered by `Execute` alone.
- HttpInvariant.RunSafe: strict mode only; callbacks succeed, and do not pause the parser or change its fields.
- HttpTransfer.ChunkedByHeader: values on one line; continued header lines are covered by `Execute` and `RunCoded`
  only.
- HttpFraming.FramingOnRuns: header fields on one line each; not for messages that switch to another protocol, or have
  the method CONNECT, nor for responses to HEAD, which only the user of the parser can know; heads within the limit.
- HttpChunked.ContentLengthValue: values on one line that fit the header limit.
- HttpUrl.ParseUrl: for inputs of 65536 bytes and more, whose offsets wrap around in 16 bits, only that no field is
  read outside the input.
- HttpUrl.ReadPort: an unsigned long has 64 bits; the width makes no difference, since no value above 65535 is
  multiplied again.
- InetOps.Ntop6: strncpy into a buffer that the text just fills leaves no final NUL; the model says what is copied and
  when it is refused.
- InetOps.Pton6: scanf is taken to saturate numbers that are too large, which the C standard leaves open.
- WepollPort.Port.Serve: the records of a port are a map, and its queues are sequences, so that pointer identity is
  not modelled there; the queue on linked nodes is `WepollQueue`, the tree on linked nodes `WepollTree`.
- WepollPort.Port.PollEnd: the wait itself, its timeout and the array for the results are not modelled; a batch is any
  completions that the kernel owes.
- WepollReflock.RunSafe: fewer than 2^28 threads, so that the counter does not run into the destroy bit;
  InterlockedAdd, the exchange and the two halves of the keyed event are atomic steps.
- Buffer.Buffer.EnsureSpace: where the bytes would be moved beyond the end of the vector, the model stops and says so,
  since what follows is undefined in C++; so it does for sizes that a size_t cannot hold. Failures of the allocator
  are not modelled.
- Buffer.Buffer.ReadInt: the bytes read are those of the vector; reading beyond its end is not modelled.
- TcpConnection.TcpConnection.Send: the variants of send that move or share a buffer, and queue it, are modelled as
  the queued send of the same bytes; the output buffer of a connection is a sequence of bytes there, and `Buffer` is a
  model of its own.
- TcpConnection.TcpConnection.SendInLoop: a socket takes nothing once its writing side is shut down; it fails, with
  EPIPE or, under Windows, with an error that the code does not take for fatal.
- TcpConnection.TcpConnection.Drive: switching reading and writing on and off by the user, and the delayed forceClose.
- TimerManager.TimerManager.Drive: the clock does not jump, and the addresses of timers, which order timers of the
  same expiry, are not used again.
- TimerManager.TimerManager.HandleExpired: the Windows variant, which computes a timeout instead of arming a kernel
  timer.
- LogAsynAppender.LogAsynAppender.Interleave: the log file takes every buffer as a whole; rolling over, flushing and
  the names of files are left out.
- Sockets, pollers other than wepoll, channels, acceptor, connector, server and client, the HTTP classes above the
  parser, thread pools, time stamps, formatting of log lines: they forward calls and would only add easy members.
