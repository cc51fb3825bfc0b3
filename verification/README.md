# netio: a verified model

netio accepts TCP connections, forwards each client's request through System V
message queues to forked container processes, and writes their answers back. A
container runs its services as coroutines: the second service suspends in the
middle of a request, sends a nested request to the first, and is resumed by the
answer, which finds it by arithmetic on a serial number. This project models
that system and proves what holds on every run of it.

The theorems to read first:

- `Runs.NoAssertFires`, `Runs.SerialsAreExclusive`, `Runs.NonInterference`,
  `Runs.RequestsAreConserved`, `Runs.AnswersAreRight`: any number of container
  processes, every interleaving, with messages that are the printed texts
  themselves and puts that may fail.
- `Journey.IdleFleetServes`: that an idle fleet does answer every request.
- `CmdObj.FieldsOfText`, `CmdObj.RoundTrip` and `CmdObj.RoundTripTwice`: the text
  codec under it.
- `DeliveryRuns.DeliveryIsRight` and `DeliveryRuns.AnsweredOnce`: netio and the
  containers together, down to the text written to each descriptor;
  `HangUps.LateAnswers` and `HangUpRuns.WideDeliveryIsRight`: exactly what is left
  of it when clients hang up early or send in two pieces, with
  `LateAnswer.LateAnswerDoesHarm` for a run on which it goes wrong.
- `Guards.ProcessCrashes`, `Guards.TextWithSerial`: the exact condition under
  which an event ends its process, and why requests must be well formed.
- `WatchList.WatchListLaw`: the reactor's list against the kernel's epoll set.
- `Checksum.CheckSum`, `Checksum.DamagedWord`, `Packet.StructThenParse`,
  `Packet.ParseThenStruct`, `Packet.ServerPacketParses`, `Framing.WriteThenRead`,
  `Framing.ReadOutcome`: the PHP client.
- `Cache.GetIsTotal`, `CacheProcess.CCacheManager.Initalize`: the counter cache.

How it is built. What a step does is written as functions on values (`Dispatcher`,
`Container`, `Protocol`, `Reactor`, `Delivery`, `Cache`); the results are lemmas
about all inputs or all runs of these. The source's objects are classes
(`CmdObj.CCmd`, `MsgQueue`, `ContainerProcess`, `NetioProcess`, `CacheProcess`)
whose methods change their fields in place and are proved equal to the functions,
so `ContainerProcess.ProcessEvent`, `NetioProcess.TakeAnswer` and
`NetioProcess.HandleReported` carry the results over to the objects.

What comes from outside is a parameter: process ids, whether a queue has room
(`room`), what `accept` and `read` give, what a write takes, the string hash, the
numeric reading of a header, the time. A failing assert, an unset queue pointer
and a switch into a context that has returned are outcomes (`Aborted`, `Crash`,
`ok == false`) that are proved unreachable. One event of one process is one step;
this is right because only process p reads messages of type p * 10 + 3.

Runs may begin with what an earlier fleet left in the two request queues
(`Protocol.Leftovers`), as long as left-over calls name no process of this fleet.

Facts that the proofs brought out:

- A descriptor whose read failed stays on the watch list for good and is never
  watched again, whoever gets its number next (`WatchList.StaleForGood`).
- The endpoint check compares port and family only; both address texts are in the
  same static buffer (`Reactor.SockValid`). So a late answer can be written to
  another client, who never asked (`LateAnswer.LateAnswerDoesHarm`).
- A failing `msgrcv` in netio goes on as an empty answer, which overwrites the
  buffer of descriptor 0 and nothing else (`DeliverySteps.PollMoves`).
- Damage to one aligned word of a packet passes the checksum exactly if it turns
  0 into 0xffff or back (`Checksum.DamagedWord`).
- Building again what was parsed restores an accepted packet exactly if its six
  fixed bytes (first, last, response flag, response information and reserve) are
  those that the builder writes, its checksum field is not 0xffff, and that field
  is 0 when no checksum is asked for (`Packet.ParseThenStruct`).
- A message of 100000000 bytes or more never comes back from the reader as it
  was (`Framing.WriteThenRead`); nor does an empty one, for which PHP 5's `substr`
  gives false.
- `SplitString` undoes a join of separator-free parts exactly unless the parts
  are one empty text (`Text.SplitJoin`).
- A first start writes the heads of the cache tables only, so counters begin at
  nothing because the kernel hands out a zero area (`CacheProcess.CCacheManager.Initalize`).

## Model

| member | source | states |
|---|---|---|
| Text.TrimMeaning | netio/include/string_helper.h:38-52 | Trim takes white space off both ends and nothing else: the text is blank + result + blank, and the result neither begins nor ends with white space |
| Text.TrimUnique | netio/include/string_helper.h:38-52 | a trimmed text between blanks is what Trim gives, so the description determines it |
| Text.WhiteSpace | netio/include/string_helper.h:38-52 | white space is the six characters with codes 9 to 13 and 32 |
| Text.SplitString | netio/include/string_helper.h:15-36 | the find-and-erase loop ends and leaves the pieces between the separators; nothing for the empty text |
| Text.JoinSplit | netio/include/string_helper.h:15-36 | joining the tokens with the separator gives every input back |
| Text.SplitJoin | netio/include/string_helper.h:15-36 | splitting a join of separator-free parts gives the parts back, if and only if they are not one empty part |
| Text.AtoiItoa | netio/include/cmd_obj.h:41-62 | a 32-bit number printed and read through atoll and the cast is itself |
| Text.AtollMeaning | netio/include/cmd_obj.h:58-62 | behind white space and at most one sign, atoll reads the digits up to the first other character, held at the ends of 64 bits; a text without digits reads as 0 |
| Text.ToInt32Meaning | netio/include/cmd_obj.h:58-62 | the cast to int keeps the low 32 bits, and a number in range as it is |
| StrMap.StrPairAppendToMap | netio/include/string_helper.h:57-73 | the nested token loops add to the given map what the specified collection adds |
| StrMap.FirstWins | netio/include/string_helper.h:57-73 | a new key is in the map if and only if some token is a pair with it, and its value, trimmed, is that of the first such token |
| StrMap.PairMeaning | netio/include/string_helper.h:57-73 | a token with exactly one equals sign is a pair of its two trimmed sides |
| StrMap.PairShape | netio/include/string_helper.h:57-73 | and no other token is a pair |
| StrMap.CollectKeeps | netio/include/string_helper.h:57-73 | a key that is in the map already keeps its value |
| StrMap.PairMapSerialise | netio/include/cmd_obj.h:112-120 | a map of clean keys and values printed in key order reads back as the same map |
| StrMap.PrintedInOrder | netio/include/cmd_obj.h:112-120 | a printed map is its entries, each key once, in ascending order |
| StrMap.LessMeaning | netio/include/cmd_obj.h:112-120 | that order is byte by byte: at the first difference the smaller byte, or the end, comes first |
| StrMap.BehindEntries | netio/include/string_helper.h:57-73 | text behind printed entries is tokenised on its own and cannot change their keys |
| CmdObj.CCmd.InitCCmd | netio/include/cmd_obj.h:54-121 | the erase-and-assign blocks leave in the object what the parse of the text into the old value gives; what that is for every text, CmdObj.FieldsOfText and CmdObj.DataOfText say |
| CmdObj.FieldsOfText | netio/include/cmd_obj.h:54-111 | for every text, complete or not, each of the nine fields is read from the first token that is a pair with its key, and stays as it was if there is none |
| CmdObj.DataOfText | netio/include/cmd_obj.h:112-121 | for every text, the data holds exactly the pairs with other keys |
| CmdObj.PrintMap | netio/include/cmd_obj.h:112-120 | the loop over the remaining map prints the entries in key order, separated by '&' |
| CmdObj.PrintedIsHeaderAndCut | netio/include/cmd_obj.h:30-34 | with an address of at most 15 characters, the 1016-byte buffer always holds the whole header and the data cut at the end |
| CmdObj.PrintedText | netio/include/cmd_obj.h:36-51 | the printed text is the nine entries in the order of the source, joined by ampersands, and the data |
| CmdObj.PrintedLength | netio/include/cmd_obj.h:30-34 | in the buffer it is the first 1015 characters of that, or all |
| CmdObj.HeaderFirst | netio/include/cmd_obj.h:36-51 | whatever text follows a printed header, its nine keys keep their values, and the rest of the map is that of the text alone |
| CmdObj.RoundTrip | netio/include/cmd_obj.h:30-121 | every command printed into a message buffer and parsed into any command restores all nine header fields, also when the data repeats reserved keys and when the buffer cuts it; data that fits comes back canonical |
| CmdObj.CanonMeaning | netio/include/cmd_obj.h:54-121 | canonical data has the same pairs without the reserved keys, is a fixed point, and is not longer |
| CmdObj.RoundTripTwice | netio/include/cmd_obj.h:30-121 | printing and parsing a second time changes nothing, for every command |
| MsgQueue.CMsgQueue.PutMsg | netio/src/msgq_manager.cpp:84-98 | too long and failed sends are told apart and leave the queue as it was; otherwise the message is last |
| MsgQueue.CMsgQueue.GetMsg | netio/src/msgq_manager.cpp:20-41 | the first message of the wanted type leaves the queue and no other; length 0 and no change when there is none; RECV_MSG_FAILED, with length and queue as they were, when msgrcv fails otherwise |
| MsgQueue.CMsgQManager.AddMsgQueue | netio/src/msgq_manager.cpp:44-118 | a new key gets an object: attached to the kernel queue, with the messages that it holds already, or still standing for identifier 0 when msgget or msgctl fails; a known key keeps its queue |
| MsgQueue.CMsgQManager.GetMsgQueue | netio/src/msgq_manager.cpp:130-141 | the search loop finds the queue of a key exactly if there is one, else MSGQ_NO_EXIST |
| ContainerProcess.IService.SwitchTo | netio/src/intf_service.cpp:47-69 | a switch into a service runs it to its next switch back, from its start or from where it sleeps |
| ContainerProcess.IService.ExecuteFirst | netio/src/svc_test.cpp:32-47 | the first service sets data and type and returns at once |
| ContainerProcess.IService.SendRequest | netio/src/svc_test2.cpp:40-59 | a command with the handler's serial number and command 2 goes to the queue of the first container, if there is room |
| ContainerProcess.IService.ExecuteToSchedule | netio/src/svc_test2.cpp:80-99 | the request is kept in obj3 before the shared command is overwritten; the nested request is out and the task marked unfinished |
| ContainerProcess.IService.ExecuteAfterSchedule | netio/src/svc_test2.cpp:60-112 | the shared command becomes the kept request with serial number 0, return value 0 and the answer's data extended |
| ContainerProcess.CServiceDispatcher.ResumeBySerial | netio/src/service_dispatcher.cpp:22-41 | the loop over the stateful map, which goes on after a hit and reads the overwritten serial number again, is the specified scan |
| ContainerProcess.CServiceDispatcher.TakeFirstFree | netio/src/service_dispatcher.cpp:44-60 | the handler with the smallest index moves from the stateless to the stateful map |
| ContainerProcess.CServiceDispatcher.PutBack | netio/src/service_dispatcher.cpp:64-76 | a finished handler gets its context made again and moves back |
| ContainerProcess.CServiceDispatcher.Dispatch | netio/src/service_dispatcher.cpp:14-79 | on the objects, Dispatch changes the pool, the command and the queue as the dispatch function says, or aborts exactly where that does |
| ContainerProcess.CServiceDispatcher.AddSvcHandler | netio/src/service_dispatcher.cpp:81-84 | a handler is filed as stateless under its own index |
| ContainerProcess.RegisterHandlers | netio/src/container.cpp:68-73 | the start-up loop leaves process pid with 25 fresh handlers, numbers pid * 100 to pid * 100 + 24 |
| Dispatcher.ScanHitsOnce | netio/src/service_dispatcher.cpp:26-38 | exactly one coroutine is resumed per response, although the loop does not stop at a hit |
| Dispatcher.DispatchResponse | netio/src/service_dispatcher.cpp:22-79 | the assert fails exactly if the serial number names no sleeping handler; otherwise that handler finishes with what it saved and is free again |
| Dispatcher.DispatchRequest | netio/src/service_dispatcher.cpp:44-79 | for every command that is no response: the first service answers and keeps its pool, unless the command came with the unfinished mark; the second falls asleep with the request; without a free handler the command comes back with NO_FREE_SVC_HANDLER |
| Dispatcher.NoFreeHandler | netio/src/service_dispatcher.cpp:44-48 | NO_FREE_SVC_HANDLER is returned exactly when all handlers of the process are suspended, or when the first service hands back a command that came with it |
| Dispatcher.DispatchKeepsPool | netio/src/service_dispatcher.cpp:14-79 | after a Dispatch the two maps are in order again, if and only if the command was a response, or the service is the second, or the command came without the unfinished mark |
| Dispatcher.FullPoolSize | netio/src/container.cpp:68-73 | a process starts with 25 handlers, whose numbers are pid * 100 to pid * 100 + 24 |
| MsgQueue.QueueOfCmd | netio/src/container_user_event_handler.cpp:169-182 | the counting loop selects the queue of command 1 or 2, and no queue for any other |
| ContainerProcess.CContainerEventHandler.ProcessMsg | netio/src/container_user_event_handler.cpp:148-220 | on the objects, a message is dispatched and answered as the step function says |
| ContainerProcess.CContainerEventHandler.OnEventFire | netio/src/container_user_event_handler.cpp:47-136 | the message that the two polls choose is taken and processed, and nothing changes without one; a poll may miss what comes after it, and a failing one sees nothing |
| Container.RequestsComeFirst | netio/src/container_user_event_handler.cpp:56-102 | the choice: the first waiting request if the first poll sees one, also when an answer waits; else the first answer of type pid * 10 + 3 if the second poll sees one; else nothing |
| Container.TruncDivMeaning | netio/src/container_user_event_handler.cpp:186-188 | the division that finds the process of a serial number rounds towards zero, for numbers of either sign |
| ContainerProcess.ProcessEvent | netio/src/reactor.cpp:463-482 | after any run, an event of a container goes through and leaves the objects in the next state of the run |
| Answers.ReadFinalAnswer | netio/src/container_user_event_handler.cpp:195-208 | the answer that a container prints for netio reads back exactly as it was built |
| Answers.ReadAppAnswer | netio/src/container_user_event_handler.cpp:186-192 | the answer to a nested request reads back exactly as it was built |
| Answers.ReadNestedRequest | netio/src/svc_test2.cpp:40-59 | a nested request reads back as an otherwise empty command with its serial number |
| Answers.ReadClientText | netio/testClient/test.php:13 | a text of the form that the PHP client sends reads as its command, with its other two pairs as data and no other field set |
| ProtocolSteps.NextKeepsInv | netio/src/container_user_event_handler.cpp:47-220 | every step of every process and of netio keeps the global invariant over queues, handler maps and saved requests |
| ProtocolSteps.RequestArrives | netio/src/tcp_net_handler.cpp:120-185 | what a container reads of a client text: the connection it came from, the numbers it gives, and all its other pairs as data, up to 790 characters without loss |
| ProtocolSteps.EventMoves | netio/src/container_user_event_handler.cpp:148-220 | an event that takes a message sends exactly one, and the serial number and the client that came in are the ones that went out or were saved |
| Runs.NoAssertFires | netio/src/service_dispatcher.cpp:42 | in every reachable state, whichever process moves next, the assert holds and no returned context or unset queue is used |
| Runs.SerialsAreExclusive | netio/src/container_user_event_handler.cpp:186-188 | every serial number on its way is there once and names one suspended handler, of the process that it encodes, unless it was left over from before the start; then it names none |
| Runs.PoolsStayInOrder | netio/src/service_dispatcher.cpp:44-76 | in every reachable state each process has two disjoint maps that together hold the handlers it started with |
| Runs.MessagesHaveText | netio/src/container_user_event_handler.cpp:59-66 | no message waiting for a container is empty, so length 0 means that nothing waits |
| Runs.RequestsAreConserved | netio/src/container_user_event_handler.cpp:148-220 | as multisets, accepted requests are those queued, saved, answered or lost by a failed put; with no failed put nothing is lost, and never is one answered twice |
| Runs.CallsAreConserved | netio/src/svc_test2.cpp:40-99 | nested calls on their way or lost are those of the suspended handlers, one to one, and those left over from before the start |
| Runs.AnswersAreRight | netio/src/svc_test2.cpp:96-111 | every answer that reaches netio has the body of its command, with the id of a process of the right service; an error text comes only from a process that had no free handler when it sent it |
| Runs.ErrorsNeedAFullPool | netio/src/container_user_event_handler.cpp:157-162 | a step that sends or loses a message with an error is the event of a second-service process without a free handler |
| Runs.ErrorsAreRefusals | netio/src/service_dispatcher.cpp:44-48 | every answer with an error was put on the back queue by a step of a second-service process whose handlers were all suspended at that moment |
| Runs.OneHandler | netio/src/svc_test2.cpp:80-112 | a step leaves a sleeping handler alone, or puts one to sleep with the request just taken, or wakes one, which sends that request back with type, return value and combined body set and every other field as it was |
| Runs.NonInterference | netio/src/svc_test2.cpp:96-110 | whatever happens in between, a handler that wakes up answers the request it fell asleep with, with all its fields but type, return value and data as they were |
| Journey.IdleFleetServes | netio/src/container_user_event_handler.cpp:47-220 | in an idle fleet with a free handler every second-service request is answered after one event each of the second, the first and the second container; the answer is the request with the combined body as data and RESPONSE as type, and all pools are as before |
| Journey.StartIsIdle | netio/src/container.cpp:66-81 | a fleet that has just started is such an idle fleet |
| Journey.SomeRunAnswers | netio/src/container.cpp:47-81 | every fleet with both services has a run on which a given well-formed request of the second service gets the combined answer |
| Guards.ProcessCrashes | netio/src/container_user_event_handler.cpp:148-220 | ProcessMsg ends the process if and only if a response names no sleeping handler, or anything else has to be answered to a service that does not exist |
| Guards.AnswerForNobody | netio/src/service_dispatcher.cpp:42 | an event that takes a response for no sleeping handler ends the process, so leftovers must not name a process id in use |
| Guards.RequestWithSerial | netio/src/container_user_event_handler.cpp:167-192 | a first-service request that carries the serial number of a live first-service process ends that process |
| Guards.RequestWithUnfinishedMark | netio/src/container_user_event_handler.cpp:164-166 | a first-service request that carries the unfinished mark is never answered and leaves its handler out of order |
| Guards.TextWithSerial | netio/src/tcp_net_handler.cpp:120-185 | a text that a client can send becomes such a request with a serial number, so requests must carry none |
| Guards.TextWithUnfinishedMark | netio/src/tcp_net_handler.cpp:120-185 | a text that a client can send becomes such a request with the mark, so requests must not carry it |
| Guards.TextWithoutCommand | netio/src/tcp_net_handler.cpp:120-123 | a text without a command reads as command 0, at which the assert of DoRecv fails |
| Guards.ClientTextIsWellFormed | netio/testClient/test.php:13 | the PHP client texts are well-formed requests if and only if their command is 1 or 2 |
| DeliveryRuns.StartOfAll | netio/src/reactor.cpp:543-550 | for every two channel descriptors and every start of the fleet there is a start of the whole |
| Checksum.CheckSum | netio/testClient/NetUtil.php:462-490 | the word loop, two folds and hex slicing give the complement of the one's complement sum of RFC 1071, for up to 65536 bytes of any parity |
| Checksum.TwoFolds | netio/testClient/NetUtil.php:486-487 | below 2^31 the first fold is at most 0x1fffe and the second is exact |
| Checksum.SealedSumsToZero | netio/testClient/NetUtil.php:565-573 | the complement written into a zero word makes checkSum of the whole 0 |
| Checksum.DamagedWord | netio/testClient/NetUtil.php:604-612 | damage to an aligned word of a passing packet passes if and only if it turned 0 into 0xffff or back |
| Checksum.DamagedByte | netio/testClient/NetUtil.php:604-612 | damage to a single byte of a passing packet never passes |
| Checksum.ByteOrder | netio/testClient/NetUtil.php:462-490 | a machine of the other byte order finds the same two bytes (RFC 1071, section 2) |
| Packet.StructQzoneCmmPrtcl | netio/testClient/NetUtil.php:506-576 | the string building gives the packet with its fields in order, sealed if asked for |
| Packet.ParseQzoneCmmPrtcl | netio/testClient/NetUtil.php:588-649 | accepted if and only if not empty, passing if checked, and as long as its length field says; otherwise error 10612, 10613 or 10614 in that order; what the fields are for every packet, Packet.FieldBytes says |
| Packet.FieldBytes | netio/testClient/NetUtil.php:617-635 | each field of any packet of at least 25 bytes, by its bytes, big-endian, whoever built it |
| Packet.ServerPacketParses | netio/testClient/NetUtil.php:588-649 | a packet laid out with any version, numbers, checksum, response flag, information and reserve byte is accepted if and only if its length fits and it passes where asked, and parses to them |
| Packet.ShortPackets | netio/testClient/NetUtil.php:588-649 | of the packets shorter than a head exactly those of 21 to 24 bytes whose last byte is that number are accepted |
| Packet.StructThenParse | netio/testClient/NetUtil.php:506-649 | a built packet is accepted if and only if its length fits the field, and parses to its body, to its numbers modulo their field width, and to its checksum in the byte order of the wire |
| Packet.ExactFields | netio/testClient/NetUtil.php:506-649 | the numbers come back unchanged if and only if they are in range |
| Packet.ParseThenStruct | netio/testClient/NetUtil.php:506-649 | building from the parsed fields restores an accepted packet if and only if its six fixed bytes are the builder's, its checksum field is not 0xffff, and that field is 0 when no checksum is asked for |
| Framing.TcpSocketWrite | netio/testClient/NetUtil.php:100-127 | true exactly if the kernel takes enough, and then what it took is the padded length and the message; otherwise 10103 and a proper part of that |
| Framing.EnoughMeaning | netio/testClient/NetUtil.php:100-127 | enough: some writes from the front all succeed and can take, together, as many bytes as there are |
| Framing.ProgressIsEnough | netio/testClient/NetUtil.php:113-122 | if every write takes at least one byte, as many writes as bytes are enough |
| Framing.TcpSocketRead | netio/testClient/NetUtil.php:36-90 | the result and error code, for every sequence of pieces, are the specified ones, which Framing.ReadOutcome describes, and only pieces from the front are used up |
| Framing.ReadOutcome | netio/testClient/NetUtil.php:36-90 | every outcome: 10102 for a first piece that is missing or short, or when no more comes before enough has; 10104 for a header that is no number or a first piece that is too long; 10105 for a length above the limit or later pieces that bring too much; else the message |
| Framing.PhpTrimMeaning | netio/testClient/NetUtil.php:50 | the header is trimmed on both ends, and of nothing else |
| Framing.ReadSound | netio/testClient/NetUtil.php:36-90 | a returned message is what arrived behind eight characters that spell its length, not empty and not above the limit |
| Framing.WriteThenRead | netio/testClient/NetUtil.php:36-127 | over any cutting of the sent bytes with the header in the first piece, the reader returns the message if and only if it is not empty, within the limit, and shorter than 100000000 |
| NetioProcess.CReactor.AddToWatchList | netio/src/reactor.cpp:246-396 | check, slot update, epoll call and list update, on the arrays, are the specified ones; 15 if a call that the check allows fails, else 0 |
| Reactor.SockValidCases | netio/src/reactor.cpp:250-335 | the check refuses a closed slot, the slot of a listed descriptor itself, and a temporary item of another port or family, and nothing else |
| NetioProcess.CReactor.RemoveFromWatchList | netio/src/reactor.cpp:402-420 | the search-and-erase loop removes the descriptor; a failing epoll call leaves the list alone |
| NetioProcess.CReactor.WatchChannels | netio/src/reactor.cpp:543-550 | the event loop begins with the two additions, without a check, for the channels in use |
| WatchList.WatchesChannels | netio/src/reactor.cpp:543-550 | after them exactly the channels that are used and open are listed and watched, for reading |
| NetioProcess.CTcpNetHandler.DoConn | netio/src/tcp_net_handler.cpp:41-86 | the accept loop fills and watches one slot after the other; it ends with 0, -1 or FCNTL_SOCKET_FAILED, in the last case with the new connection closed |
| NetioProcess.CTcpNetHandler.DoRecv | netio/src/tcp_net_handler.cpp:88-185 | a failed read only closes; a request is put, with the connection's address, into the queue of its command, and the slot waits for sending; any other command stops the process |
| NetioProcess.CTcpNetHandler.DoSend | netio/src/tcp_net_handler.cpp:187-191 | the stored text is written, and the connection closed |
| NetioProcess.CTcpNetHandler.DoClose | netio/src/tcp_net_handler.cpp:193-200 | slot reset, removal from the list and close, in this order, as specified |
| Reactor.CloseIs | netio/src/tcp_net_handler.cpp:193-200 | together they reset the slot but for the old address, and leave the descriptor neither open nor watched nor, if it was watched, listed; nothing else changes |
| NetioProcess.CTcpNetHandler.HandleEvent | netio/src/reactor.cpp:484-523 | the dispatch on slot, flag and hang-up is the specified one, whichever of its three ends an accept loop has |
| Reactor.ActionCases | netio/src/reactor.cpp:484-523 | which events lead to an accept, a read, a write, a close or nothing, each exactly by hang-up, flag and descriptor of the slot |
| NetioProcess.CNetIOUserEventHandler.OnEventFire | netio/src/netio_user_event_handler.cpp:19-68 | one answer, if there is one, is stored for its descriptor, which is watched for writing if the check finds the connection still there; a failing msgrcv stores the empty text as an answer for descriptor 0 |
| Reactor.CutIs | netio/src/netio_user_event_handler.cpp:38 | the stored text is the first 1015 characters of the data, or all |
| NetioProcess.TakeAnswer | netio/src/netio_user_event_handler.cpp:19-68 | in every reachable state the object takes the next answer, or meets a failing msgrcv, as the joint run does |
| NetioProcess.HandleReported | netio/src/reactor.cpp:484-523 | in every reachable state the object handles a reported event as the joint run does, failed reads and all ends of the accept loop included, and writes the text that the run records |
| WatchList.WatchListLaw | netio/src/reactor.cpp:373-420 | on every run the list has no duplicates and the counter is its length; the kernel watches a part of it, all of it if and only if no read of a watched descriptor has failed |
| WatchList.StaleForGood | netio/src/tcp_net_handler.cpp:99-108 | a descriptor closed by a failed read stays listed and is never watched again |
| WatchList.SizedKept | netio/src/reactor.cpp:246-420 | every step keeps the sizes and the descriptor range of the arrays |
| DeliverySteps.StepKeepsLink | netio/src/tcp_net_handler.cpp:41-200 | every step of netio and the containers, failed reads and failing polls included, keeps slots, epoll set, waiting clients and answers in agreement |
| DeliverySteps.AnswerIsAwaited | netio/src/netio_user_event_handler.cpp:36-66 | every answer on its way belongs to the connection that still holds its descriptor and waits for it |
| DeliveryRuns.DeliveryIsRight | netio/src/tcp_net_handler.cpp:187-191 | whatever is written to a descriptor is the body of an answer that came in after the request was read from the connection which holds the descriptor now, for that client, and is right for its command |
| DeliveryRuns.AnswersGoHome | netio/src/tcp_net_handler.cpp:187-191 | every text ever written was written by such a step, to the connection whose request it answers, with an answer that came in between the read and the write |
| DeliveryRuns.AnsweredOnce | netio/src/tcp_net_handler.cpp:88-191 | every request read is waiting, ready to be answered, or answered once; every answer taken is written or ready to be |
| DeliveryRuns.SlotOrder | netio/src/tcp_net_handler.cpp:75-197 | the flag of a connection's slot goes from none to reading to sending to none, in that order only |
| DeliveryRuns.StaleIsNeverServed | netio/src/tcp_net_handler.cpp:99-108 | on the joint runs, a descriptor whose read has failed is never watched or served again, while the results above hold for all others |
| DeliveryRuns.AlwaysListening | netio/src/reactor.cpp:543-550 | at every moment of every joint run the listening socket and the wake-up channel are watched, so a client can connect, and its connection is then watched for reading unless its descriptor is stale |
| DeliveryRuns.NothingElseIsAssumed | netio/src/netio_user_event_handler.cpp:19-68 | in reachable states a step is possible whenever the kernel and the queue allow it |
| HangUps.LateAnswers | netio/src/netio_user_event_handler.cpp:49-66 | with clients that hang up, an arriving answer keeps every stored text right if and only if nobody holds its descriptor, or its own client does, or the connection there is not yet watched for writing and differs in port or family |
| HangUps.WideSteps | netio/src/reactor.cpp:484-523 | hang-ups, failed reads, repeated readable events, early writes and failing polls keep every stored text right; so does an arriving answer exactly under that condition |
| HangUps.WideNeedsNothingElse | netio/src/reactor.cpp:484-523 | while the stored texts are right, an answer can be taken whenever one waits and an event handled whenever the kernel reports it |
| HangUps.HarmfulAnswer | netio/src/netio_user_event_handler.cpp:49-66 | any other late answer is what the next writable event writes, to a connection that did not ask for it |
| LateAnswer.LateAnswerDoesHarm | netio/src/netio_user_event_handler.cpp:49-66 | there are such answers: for every fleet with a first-service process and every two clients of equal port and family there is a run of seven steps on which one asks and hangs up, and the other, given its descriptor, is written the answer without having asked |
| HangUps.NoHangUpsNoHarm | netio/src/netio_user_event_handler.cpp:49-66 | without hang-ups and repeated events every answer is harmless |
| HangUpRuns.WideRunsAreRight | netio/src/tcp_net_handler.cpp:88-200 | on every run with hang-ups, failed reads and repeated events, every text that is ready is right up to a moment if and only if the answers that arrived until then were harmless |
| HangUpRuns.WritesAreRight | netio/src/tcp_net_handler.cpp:187-191 | where the stored texts are right, a written text is the one stored for the connection's own client if and only if the descriptor was watched for writing |
| HangUpRuns.WideDeliveryIsRight | netio/src/tcp_net_handler.cpp:187-191 | on every such run, as long as the late answers were harmless, a write goes to a connection whose request an earlier step read, and its text is an answer to that request which came in after that step, if and only if the descriptor was watched for writing; then it is right for the command, and otherwise a second readable event came before the answer |
| Cache.LayoutIsSound | netio/src/cache_manager.cpp:43-73 | for all node counts the three tables share no word with each other or with the mark, and fill the area from word 1 without gaps |
| Cache.GetIsTotal | netio/src/cache_manager.cpp:84-156 | after any operations, Get is the total of the sets and increments at the key's table and bucket since the last Delete there |
| Cache.PrefixesHaveTables | netio/src/cache_manager.cpp:84-156 | the prefixes netio_, c1_ and c2_ each select their own table, and keys of different ones never share a place |
| Cache.PrefixedKeysAreKept | netio/src/cache_manager.cpp:84-156 | every key with one of the three prefixes is kept: a set is found, an increment adds to the value or starts with its own, a delete is forgotten |
| Cache.OtherKeysAreRefused | netio/src/cache_manager.cpp:84-156 | a key with none of them changes nothing and is never found |
| Cache.ZeroIsEmpty | netio/include/mod_hash_v1.h:466-479 | a zero area, as a first start finds it, holds no counter |
| Cache.PrefixesAreApart | netio/src/cache_manager.cpp:84-156 | operations on one prefix change no Get of another |
| Cache.PlainUnlessShared | netio/src/cache_manager.cpp:84-156 | for a key whose bucket no other key in use shares, the cache is a plain map of counters |
| Cache.SharedShows | netio/include/mod_hash_v1.h:466-518 | and a Set of another key in the same bucket shows through |
| CacheProcess.CModHashV1.InitalizeByNodeCount | netio/include/mod_hash_v1.h:278-322 | the sixteen words of the head are written, with these values, and no other word |
| CacheProcess.CModHashV1.Find | netio/include/mod_hash_v1.h:466-479 | the bucket's value if it is set and not invalid, else 1003 |
| CacheProcess.CModHashV1.Add | netio/include/mod_hash_v1.h:504-518 | the bucket of the key holds the value and no other word changes |
| CacheProcess.CModHashV1.Delete | netio/include/mod_hash_v1.h:481-490 | the bucket of the key holds nothing and no other word changes |
| CacheProcess.CModHashV1.Reset | netio/include/mod_hash_v1.h:492-502 | the loop from the first to the last bucket empties them all and leaves the rest of the area alone |
| CacheProcess.CCacheManager.Initalize | netio/src/cache_manager.cpp:16-76 | running the initialisation, for the first time or again, changes what no key's Get returns |
| CacheProcess.CCacheManager.Set | netio/src/cache_manager.cpp:84-102 | the operation on the area is the one on the counters; -1 for a key without a valid prefix |
| CacheProcess.CCacheManager.Get | netio/src/cache_manager.cpp:104-117 | the value of the counter, 1003 if there is none, -1 for a key without a valid prefix |
| CacheProcess.CCacheManager.Delete | netio/src/cache_manager.cpp:119-131 | the operation on the area is the one on the counters |
| CacheProcess.CCacheManager.Incr | netio/src/cache_manager.cpp:133-156 | find and add together increment the counter, with 32-bit wrap-around, or start it |

## Left out

- Client requests other than the well-formed ones: a request that carries a return value, a serial number or a command other than 1 and 2 is outside the run theorems, though `NetioProcess.CTcpNetHandler.DoRecv` says what netio does with any command, and `Guards` what a return value or a serial number leads to.
- Protocol.Leftovers: answers for netio that were waiting before the start, and left-over calls that name a process id in use again; for the second see `Guards.AnswerForNobody`.
- Texts with NUL characters, and a `read` that fills its buffer of 1000 bytes to the end without one.
- Descriptors of 1024 and more, for which `m_arrMsg` has no element.
- ContainerProcess.ProcessEvent: one event is one atomic step; two processes inside the same event at the same time are not modelled.
- Queue objects whose Init failed all stand for the kernel queue 0; here each has contents of its own.
- NetioProcess.CReactor.AddToWatchList: of `inet_addr` and `inet_ntoa` it is only used that one undoes the other.
- A batch of ready events is a sequence of single ones, and the events of the wake-up socket do nothing to the watch list.
- Framing.TcpSocketRead: the numeric reading of the header is a parameter of which only plain decimals are fixed; a read that gives an empty text forever is a script that has not ended.
- Checksum.CheckSum: 32-bit integers and a little-endian machine are fixed; packets of more than 65536 bytes could leave the integer range.
- Packet.ParseQzoneCmmPrtcl: `substr` beyond the end of a short packet reads as empty.
- The exact string hash, which sums bytes past the end of short keys; it is any fixed function.
- Concurrent increments from several processes, whose find and add are two steps.
- The statistics calls of the services and of DoRecv are not composed with the protocol; they touch only the cache.
- `InitalizeByCacheSize`, `SetIndexPointer`, `FullFillValue`, `iFreeNodeCount`, `IsEmpty`, `GetIndexedNodeCount` and the iterators of the hash table, which the cache manager does not use or only prints.
- The wake-up datagram (`RespNotify`, `usock_udp_handler.cpp`), service loading, daemon set-up, sleeps and fairness; so no answer is promised within any time.
- The other helpers of `NetUtil.php`: cURL, UDP, ids, serialisation.
