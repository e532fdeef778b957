# Verified model of SimpleHttpServ

SimpleHttpServ is a small pre-forking HTTP server. Four of its parts keep state that is easy to get
wrong, and they are modelled and proved here.

- **The incremental request parser** (`RequestLine`, `CStrings`, `StreamParse`, `RequestGrammar`,
  `RequestMachine`). `RequestMachine.ReqStatMach` is the parser as the program runs it: a 2048-byte
  array, three cursors, a line state and a request state, all updated in place while bytes arrive in
  arbitrary batches and finished lines are overwritten with NUL. `StreamParse.Parse` is a reference
  parser that looks for line feeds in the whole stream; `StreamParse.CutParse` is the same with the one
  piece of state that crosses a batch boundary. The machine's invariant says its cursors, states and
  lines are those of `CutParse` on what `recv` delivered, for both drivers: the blocking one that
  resumes over many calls and the non-blocking one that ends when `recv` would block.
- **The process pool** (`RoundRobin`, `Remainders`, `NotifyProtocol`, `ListenTrigger`, `PoolRuns`, `ChildTable`,
  `ClientEnd`). The parent's selection loop in the original and the refactored version; the notification
  protocol as a state machine over events of the kernel, the parent and the children, with the trigger of
  the listening socket, the length of its queue and the accepts per notification as parameters; a child's
  table of clients with the fate of every accepted descriptor.
- **The sorted timer list** (`TimerSpec`, `TimerSortedList`). The doubly linked heap structure, operation
  by operation, against a sequence; every list carries the history of its calls, and its invariant says
  that it is exactly what a map from live timers to expiry times would be after that history.
- **The poll table of the group chat** (`PollScan`, `TimedChat`, `AlarmGuard`). The scan that removes entries by swapping
  while it iterates, the messages it broadcasts, the accept step; and, for the version that disconnects
  silent clients, runs of accepts, messages, hang-ups and alarms over the table, the index each client keeps
  of its entry, and the timers.

System calls are environment: `Peer.Recv` may cut, fail or end the stream as it likes; the results of
`accept`, `poll` and the chat's `recv` are parameters; sends into a pipe either fit or are dropped.

## Results worth knowing

- The outcome of parsing does depend on how `recv` cuts the stream, in exactly one family of cases, and
  `StreamParse.BatchIndependence` states it as an equivalence: a batch starts just after a CR, the stream
  before it is undecided, and the next line feed comes in that same batch without a CR before it.
  `StreamParse.CutMatters` is a 14-byte stream on which the results differ. The comment at
  src/ReqStatMach.h:223-224 says the line-feed branch serves a CR at the end of the previous batch; in the
  code the cursor waits on that CR, so the pair is recognised by the other branch, and the line-feed branch
  is reached only in the stale case, where it drops an ordinary byte of the line. The model follows the code.
- Streams in which every line feed follows a CR (all well-formed requests) can be cut anywhere.
- A first line that is a bare `GET` makes the code use a pointer derived from null. The model gives it the
  explicit code `Undefined`, and `RequestLine.UndefinedIffBareGet` shows it is the only such line.
- The non-blocking driver forgets its descriptor even when the request is unfinished
  (src/ReqStatMach.h:199). The contract of `Process` says so, and in `ChildTable` such a descriptor is
  parked: still open, closed by nothing, not even by the final loop.
- With an edge-triggered listening socket the pool comes to rest with a connection waiting, until something
  further happens outside, exactly when the queue can hold more connections than a child accepts per
  notification (`ListenTrigger.EdgeTriggeredStuckIff`). The version with one accept per notification
  (examples/multitasking/docs/多进程小记.md:436) is such a pool. The one with backlog 5, so six waiting at
  most, and 100 accepts (794, 931) is not, although the notes give the refilled queue as the cause of a
  stall: what arrives during the accepts raises a new edge. There it takes an accept that fails while a
  connection waits (`ListenTrigger.FailingAcceptStuckIff`) or the exit of a child; a blocking pipe, the
  other cause the notes discuss, is not part of the model.
- The level-triggered pool that replaced it can take a waiting connection within six events of its own
  from every reachable state in which no child has exited. The parent notifies a child that has exited as
  any other, without MSG_NOSIGNAL or a handler for SIGPIPE (src/ProcessPool.h:191), so one exit can kill
  it; `ListenTrigger.LevelStrandedIff` shows that nothing else strands a connection. The parent's death can
  itself wake one child, the last one left: it accepts if a message was still unread in its pipe, and
  goes back to sleep otherwise. `ListenTrigger.LevelTriggeredServesIff` is the exact condition.
- The alarm of the timed chat (examples/framework-intro/timing_group_chat_service.cc:125-139) need not
  disconnect the clients that have been silent too long: a client moved by swap removal keeps its old entry
  index, and its handler then closes whoever has that entry. It does disconnect exactly the silent ones in
  every run if and only if the table has room for one client (`TimedChat.AlarmDisconnectsIff`); the program
  has room for two (line 44), and `TimedChat.StaleIndex` is the run. For any size, and as long as it has been
  right so far, it is right when the entries noted for the silent clients still hold them
  (`AlarmGuard.SilentAimedSuffices`); with room for two this is also necessary, with more it is not
  (`AlarmGuard.GuardExactIff`). By the same index the assertions at
  lines 346 and 360 stop the server when two clients join and the first and then the second hang up
  (`TimedChat.NeverAbortsIff`).

## Model

| member | source | states |
|---|---|---|
| RequestLine.AcceptedIffGrammar | src/ReqStatMach.h:243-276 | over bytes: a line is accepted exactly when, up to its end or a zero, it is a prefix of the three letters GET (each byte one of its two cases), 9 or 32, a non-empty URI without them, 9 or 32, the eight bytes of a version (letters in either case, last digit 0 or 1) and any tail |
| RequestLine.UndefinedIffBareGet | src/ReqStatMach.h:246-256 | over bytes: the line parser is undefined on a line exactly when it is the three letters GET in any case, up to its end or a zero |
| RequestLine.FoldIs | src/ReqStatMach.h:247 | two bytes compare equal exactly when they are equal or the upper and the lower case, 32 apart, of one letter between 65 and 90 |
| CStrings.StrPbrk | src/ReqStatMach.h:246 | on a NUL-terminated line the search returns the first blank of the C string and never reads past the terminator |
| CStrings.StrNCaseEq | src/ReqStatMach.h:247 | the bounded comparison decides whether the two truncated strings have the same length and pairwise the same letters, and never reads past the terminator |
| StreamParse.ParseExtends | examples/framework-intro/handle_http_request.cc:300-370 | a decision never changes with more input, and an undecided parse may be resumed from its last line start |
| StreamParse.UndecidedAt | src/ReqStatMach.h:208-216 | an undecided parse has no line feed left and holds its cursor back exactly when the stream ends in CR |
| StreamParse.FeedStep | src/ReqStatMach.h:222-229 | one more batch agrees with the reference parser unless it hits a pending CR, and then the reference says bad request while the machine goes past that line feed |
| StreamParse.CutParseStep | src/ReqStatMach.h:203-241 | for every stream and every cutting: without a stale batch the parse in batches is the parse of the whole; with one, the whole is a bad request and the cursors differ |
| StreamParse.BatchIndependence | src/ReqStatMach.h:203-241 | result, state, cursors and lines are independent of the cutting if and only if no batch is stale |
| StreamParse.TwoCuts | src/ReqStatMach.h:293-362 | two cuttings of one stream, one of them not stale, agree if and only if the other is not stale |
| StreamParse.SafeStream | src/ReqStatMach.h:203-241 | streams whose line feeds all follow a CR, or whose CRs all precede a line feed, can be cut anywhere |
| StreamParse.CutMatters | src/ReqStatMach.h:222-229 | a concrete stream whose result is bad request in one batch and no request in two |
| RequestGrammar.LineRoundTrip | src/ReqStatMach.h:215-219 | joining the parsed raw lines with CRLF gives back the stream up to the line cursor if and only if no batch is stale |
| RequestGrammar.RequestShape | src/ReqStatMach.h:278-291 | over bytes: a request is an accepted start line, header lines that are not empty and do not start with a zero, and a line that is empty or starts with a zero, none of them holding a 10 |
| RequestGrammar.GotRequestIff | src/ReqStatMach.h:335-344 | the reference parser answers got-request exactly on streams that start with a request |
| RequestGrammar.VerdictIff | src/ReqStatMach.h:293-362 | where the other verdicts come from, exactly: undecided on streams that go on from the beginning of a request without a 10; bad request at a 10 without a 13 before it, or on a refused first line; undefined on a first line that is a bare GET |
| RequestGrammar.BeginningShape | src/ReqStatMach.h:299-317 | over bytes: the lines that leave the machine undecided are none, or an accepted start line and header lines |
| RequestGrammar.NotBeforeTheEnd | src/ReqStatMach.h:349-353 | on every proper prefix of a request the parser is undecided |
| RequestGrammar.RecognisedOnLastByte | examples/framework-intro/handle_http_request.cc:211-370 | in whatever batches a request arrives, and whatever follows it in the batch that ends it or later, the machine is undecided before its last byte and after it has answered got-request with exactly its lines and both cursors just past it |
| RequestGrammar.StandardRequest | src/ReqStatMach.h:264-270 | GET, URI and version of section 5.1 of RFC 2616 with any headers and an empty line is such a request |
| RequestMachine.ReqStatMach.Init | src/ReqStatMach.h:108-121 | establishes the machine invariant with nothing received |
| RequestMachine.ReqStatMach.CheckOneLine | src/ReqStatMach.h:203-241 | the resumable scan finds what the first line feed from the line start means, blanks exactly the two bytes ending a line, and uses one step per byte passed plus at most one |
| RequestMachine.ReqStatMach.ParseRequestUri | src/ReqStatMach.h:243-276 | on a NUL-terminated line in the buffer the pointer arithmetic computes the verdict on the raw line and stays inside the line |
| RequestMachine.ReqStatMach.ParseHeaders | src/ReqStatMach.h:278-291 | on a NUL-terminated line it answers got-request exactly when the C string is empty |
| RequestMachine.ReqStatMach.TakeLine | src/ReqStatMach.h:299-333 | one completed line: the line cursor moves past it, the code is its verdict, the state changes only after an accepted start line, and the entity branch is unreachable |
| RequestMachine.ReqStatMach.ParseBatch | src/ReqStatMach.h:293-362 | from any resumable state the loop reaches exactly the outcome of the reference parse from the last line start, with the buffer laid out as completed lines blanked, received bytes, zeros |
| RequestMachine.ReqStatMach.AcceptBatch | examples/framework-intro/handle_http_request.cc:389-397 | a received batch keeps the invariant, which equates the machine with the parse in batches and bounds the scan steps by bytes passed plus batches |
| RequestMachine.ReqStatMach.RecvAndParse | examples/framework-intro/handle_http_request.cc:372-399 | one call of recv: internal error exactly when it fails, done exactly when it returns nothing, and otherwise its bytes are one more batch; the invariant is kept and an undecided machine has made progress |
| RequestMachine.ReqStatMach.HandleConnection | examples/framework-intro/handle_http_request.cc:164-177 | for every peer the driver calls recv at most once per received byte and once more, stops at the first answer that decides, is in internal error exactly when that one failed and done exactly when it returned nothing; unless it failed, a request of at most 2048 bytes at the start of the stream is answered however it is cut, and if no batch was stale the code is the verdict on the first 2048 bytes |
| RequestMachine.ReqStatMach.Process | src/ReqStatMach.h:135-201 | the non-blocking driver calls recv until the first answer that decides: undecided exactly when that one would block, failed exactly when it failed, done exactly when it returned nothing; it closes the descriptor unless undecided and forgets it in either case (neither when the line parser is undefined), fails on a forgotten one and keeps a decided one without calling recv; a request at the start of the stream has been answered exactly when its last byte has been received, and the code agrees with the verdict if no batch was stale |
| RequestMachine.AnsweredIff | src/ReqStatMach.h:135-160 | whatever the cutting and whatever recv did, the code is got-request on a stream that starts with a request exactly when all of the request has been received |
| RequestMachine.FinalVerdict | examples/framework-intro/handle_http_request.cc:175-193 | when recv did not fail and no batch was stale, the final code is the verdict on the first 2048 bytes of the stream, where done-receiving stands for undecided |
| RequestMachine.RequestAnswered | examples/framework-intro/handle_http_request.cc:164-193 | whatever the cutting, stale or not, the final code on a stream that starts with a request of at most 2048 bytes is got-request unless recv failed |
| RoundRobin.Parent.Select | src/ProcessPool.h:174-185 | the selection loop picks the first child with a pid in cyclic order, passing over none but the parent's slot and slots without a pid, and moves the pointer just past it |
| RoundRobin.OriginalParent.Select | examples/multitasking/processpool.h:259-270 | the same for the original loop without a parent slot |
| RoundRobin.SelectionsCycle | src/ProcessPool.h:159-185 | from any pointer the selections walk the list of live children cyclically |
| RoundRobin.FairWindow | src/ProcessPool.h:174-185 | any window of as many notifications as live children reaches each exactly once |
| RoundRobin.ReceivedIs | src/ProcessPool.h:174-185 | the exact number of the first n notifications that each live child has received |
| RoundRobin.NeverTheParent | src/ProcessPool.h:177-186 | with a live child every notification goes to a live child and never to slot 0 |
| RoundRobin.SameSchedule | examples/multitasking/processpool.h:244-270 | for every pid map with a live child the refactored version notifies the same children, shifted by one, for ever |
| NotifyProtocol.ReachableInv | src/ProcessPool.h:279-336 | in every reachable state a child that nothing will wake has room in its pipe |
| NotifyProtocol.NotifyArms | src/ProcessPool.h:188-192 | a notification leaves its child with bytes to read and a pending edge, or just woken to them, even when the send did not fit, and kills the parent exactly when that child has exited |
| NotifyProtocol.NoLostWakeup | src/ProcessPool.h:143-192 | while connections wait a running parent can notify a child with a pid; it survives that exactly when the child has not exited, and the child is then about to read its pipe and accept |
| NotifyProtocol.DueAnswers | src/ProcessPool.h:267-336 | however the others run, a due child calls accept or exits within a fixed number of its own moves |
| NotifyProtocol.NotificationAnswered | src/ProcessPool.h:188-336 | every notification the parent survives is followed by a call of accept (or the exit) of the notified child within four of its moves |
| NotifyProtocol.NotifySchedule | src/ProcessPool.h:174-192 | in every run the n-th notification goes to the n-th child of the round-robin schedule, whatever happens in between |
| NotifyProtocol.ChildServed | src/ProcessPool.h:174-336 | in every run from every reachable state a child that does not exit has called accept once there were as many notifications as children with a pid and then four moves of that child |
| PoolRuns.BacklogBalance | src/ProcessPool.h:296-306 | in every run the connections waiting are those that arrived and have not been accepted |
| PoolRuns.CallsBound | src/ProcessPool.h:296-297 | in every run a child calls accept at most as often as it may per notification it has read |
| PoolRuns.QuietPool | src/ProcessPool.h:155-192 | with nothing waiting and nothing arriving the parent polls nothing and sends at most a notification already under way |
| PoolRuns.AwakeAnswers | src/ProcessPool.h:267-306 | a child awake for a message calls accept within two moves of its own and does not exit before |
| PoolRuns.OversleepsIff | src/ProcessPool.h:279-284 | a level-triggered pool can leave a child asleep with unread messages and no edge if and only if a pipe holds 12 bytes, which is one message more than a wake-up reads |
| PoolRuns.EndOfPipe | src/ProcessPool.h:79-101 | whatever step makes the last process go that could write into a child's pipe gives that child an edge, and with nothing left to read it goes back to sleep |
| PoolRuns.TerminateStops | src/ProcessPool.h:206-222 | after SIGTERM nothing is polled, exactly a notification already under way is sent before the parent goes, and it can go within two steps |
| ListenTrigger.EdgeTriggeredStuckIff | examples/multitasking/docs/多进程小记.md:435-437 | for every pid map with a child and every pipe capacity: without exits and failing accepts an edge-triggered pool has a run to rest with a connection waiting if and only if the queue holds more than a child accepts per notification |
| ListenTrigger.FailingAcceptStuckIff | src/ProcessPool.h:294-306 | without exits but with accepts that may fail it has such a run if and only if a connection can wait at all |
| ListenTrigger.LevelTriggeredServesIff | src/ProcessPool.h:141-192 | in a reachable level-triggered state a waiting connection can be accepted without outside help if and only if the parent runs and the next child in turn has not exited, or some child is on its way to accept with bytes to read, or the parent runs and the last child left has an unread message, to which the parent's death will wake it; and then within six events |
| ListenTrigger.Settles | src/ProcessPool.h:279-287 | when the parent has gone and the children left have read everything, whoever the end of a pipe wakes goes back to sleep, and the pool is at rest with no connection accepted |
| ListenTrigger.LevelTriggeredServes | src/ProcessPool.h:141-192 | after every run in which no child exits a waiting connection can be accepted within six events |
| ListenTrigger.LevelStrandedIff | src/ProcessPool.h:141-192 | a level-triggered pool has a run to rest with a connection waiting if and only if a connection can wait at all, and every such run has a child exit |
| ListenTrigger.ExitStrands | src/ProcessPool.h:188-192 | the run in which a child exits and the parent, notifying it, is killed |
| ChildTable.ClosedOnce | src/ProcessPool.h:297-336 | a log the kernel accepts has closed each descriptor as often as it was opened, except once less while it is open |
| ChildTable.Child.AcceptOne | src/ProcessPool.h:307-323 | an accepted descriptor that is not open finds its slot free, so the too-quick branch is unreachable, and is marked |
| ChildTable.Child.AcceptRound | src/ProcessPool.h:296-336 | a round takes the descriptors up to the first failure and at most 100, marks exactly them and closes none |
| ChildTable.Child.ProcessClient | src/ReqStatMach.h:135-201 | whatever `Process` can end with, an event closes the descriptor once unless the request is unfinished, in which case it is parked; the open descriptors stay the marked and, apart from them, the parked ones |
| ChildTable.Child.CloseAll | src/ProcessPool.h:379-384 | the final loop closes every marked descriptor once, in ascending order, and leaves exactly the parked ones open |
| TimerSpec.TickExact | examples/framework-intro/client_timer_list.h:170-187 | on a sorted list a tick fires exactly the entries expiring before it, earliest first, and keeps exactly the others |
| TimerSpec.InsertPuts | examples/framework-intro/client_timer_list.h:70-111 | a new entry goes behind all that expire strictly earlier and before all others, which keep their order |
| TimerSpec.ChangePuts | examples/framework-intro/client_timer_list.h:151-158 | a reset entry is taken out, the others keeping their order, and put in again before the entries of equal expiry |
| TimerSpec.RemoveTakes | examples/framework-intro/client_timer_list.h:144-149 | a deleted entry is taken out and the others keep their order |
| TimerSpec.StepHolds | examples/framework-intro/client_timer_list.h:144-187 | each operation on the list is the same operation on the map of live expiry times |
| TimerSpec.RunHolds | examples/framework-intro/client_timer_list.h:70-187 | after every legal run the list is sorted and holds exactly the live timers with their latest expiry |
| TimerSpec.CallsAreLegal | examples/framework-intro/timing_group_chat_service.cc:302-309 | the chat server's calls on its timers are legal and keep the expiry of every timer in use at its last touch plus the alive time |
| TimerSpec.AlarmFires | examples/framework-intro/client_timer_list.h:170-187 | over every run an alarm fires exactly the timers in use last touched more than the alive time before, longest untouched first, each once |
| TimerSortedList.TimerList.Link | examples/framework-intro/client_timer_list.h:70-111 | relinking inserts the timer before the first one that does not expire earlier and keeps a well-formed doubly linked list |
| TimerSortedList.TimerList.AddTimer | examples/framework-intro/client_timer_list.h:70-111 | puts the timer behind those that expire earlier and before all others; the heap list refines sorted insertion and stays what its history of calls says |
| TimerSortedList.TimerList.SoftDelTimer | examples/framework-intro/client_timer_list.h:113-142 | unlinking removes exactly the given timer, or reports that it is not there |
| TimerSortedList.TimerList.DelTimer | examples/framework-intro/client_timer_list.h:144-149 | refines removal and frees the timer exactly when it was in the list |
| TimerSortedList.TimerList.ChgTimer | examples/framework-intro/client_timer_list.h:151-158 | takes a listed timer out and puts it in again with its new expiry, before the timers of equal expiry, without freeing anything; another timer changes nothing |
| TimerSortedList.TimerList.TickOnce | examples/framework-intro/client_timer_list.h:170-187 | removes, hands over and frees exactly the early prefix in order, leaving a well-formed list whose head has no predecessor |
| PollScan.ScanExact | examples/framework-intro/group_chat_service.cc:213-267 | over the four flags: a pass visits every entry exactly once despite swap removal, and an entry is closed, and no longer in the table, exactly when it has an error or a hang-up and is not reported writable |
| PollScan.SentExact | examples/framework-intro/group_chat_service.cc:241-266 | a message is sent to a client exactly when the client was in the table, is not the sender, and had not been closed when the sender was visited, readable and without error or hang-up; its 32 bytes are the first 31 received ones, filled up with zeros |
| PollScan.CalmScan | examples/framework-intro/group_chat_service.cc:213-267 | without errors and hang-ups the pass goes through the table in order and leaves it as it is |
| PollScan.NextVisited | examples/framework-intro/group_chat_service.cc:83-87 | after an entry that is closed the one visited next is the last of the table |
| PollScan.SentOnce | examples/framework-intro/group_chat_service.cc:252-261 | no message is sent twice to the same client in a pass |
| PollScan.BroadcastExact | examples/framework-intro/group_chat_service.cc:254-261 | one broadcast reaches every other client of the table once and never the sender |
| PollScan.BroadcastOrder | examples/framework-intro/group_chat_service.cc:254-261 | the receivers of a broadcast come in table order |
| PollScan.ChatTable.Accept | examples/framework-intro/group_chat_service.cc:171-205 | a new connection gets the next entry with no flags, or is closed when the table is full |
| PollScan.ChatTable.ReplaceAndClose | examples/framework-intro/group_chat_service.cc:83-87 | closes the entry, moves the last one into its place, keeps all others where they are and leaves the receive buffers of all remaining clients alone |
| PollScan.ChatTable.SendToOthers | examples/framework-intro/group_chat_service.cc:254-261 | the sending loop produces exactly the broadcast of the sender's buffer |
| PollScan.ChatTable.ScanClients | examples/framework-intro/group_chat_service.cc:213-267 | the in-place loop visits, closes, sends and keeps what the pass says, in its order and in as many rounds as there were clients, with every remaining client's buffer fresh if it was readable and untouched otherwise |
| TimedChat.RemovalKeepsIndexIff | examples/framework-intro/timing_group_chat_service.cc:118-130 | from a table in which every noted index is right a removal closes the right client, and leaves the indices right if and only if that client had the last entry |
| TimedChat.AlarmClosesSilent | examples/framework-intro/timing_group_chat_service.cc:132-139 | while the entry at the noted index of every silent client still holds it, whatever the other indices are, an alarm closes exactly the silent clients, each once, in the order of their timers |
| TimedChat.OrderlyAlarm | examples/framework-intro/timing_group_chat_service.cc:227-402 | after every run whose removals were of last entries the alarm closes exactly the silent clients |
| TimedChat.AlarmDisconnectsIff | examples/framework-intro/timing_group_chat_service.cc:118-139 | the alarm closes exactly the silent clients after every run if and only if the table has room for at most one |
| TimedChat.StaleIndex | examples/framework-intro/timing_group_chat_service.cc:125-139 | the run in which an alarm closes a client just heard of in the place of the silent one |
| TimedChat.NeverAbortsIff | examples/framework-intro/timing_group_chat_service.cc:341-362 | no run fails the assertion on the noted index, or removes from an empty table, if and only if the table has room for at most one client |
| AlarmGuard.SilentAimedSuffices | examples/framework-intro/timing_group_chat_service.cc:118-139 | for a table of any size, after any run whose alarms were right, hang-ups and swaps included, the next alarm is right if it finds every silent client at its noted index |
| AlarmGuard.GuardExactIff | examples/framework-intro/timing_group_chat_service.cc:43-48 | that guard is also necessary, after every such run, if and only if the table has room for at most two, which is the program's size |
| AlarmGuard.RightByChance | examples/framework-intro/timing_group_chat_service.cc:118-130 | with room for three there is a run after which the alarm is right although a silent client is not at its noted index, because another handler has just put it back there |
| AlarmGuard.OpenedAndClosed | examples/framework-intro/timing_group_chat_service.cc:118-319 | after every run whose alarms were right each descriptor has been closed as often as it was accepted, but once less while its client is connected |
| AlarmGuard.TurnedAway | examples/framework-intro/timing_group_chat_service.cc:281-284 | a client accepted on a full table costs exactly the close of its own descriptor |

## Left out

- Sockets, epoll, poll, fork, fcntl, sigaction and alarm themselves: only their results appear, as nondeterminism or parameters.
- Response building: constant text. Logging: not modelled, and not constant. The received bytes are printed as a C string (src/ReqStatMach.h:158-161, examples/framework-intro/handle_http_request.cc:392), which on a full buffer without NUL is not terminated inside it; the bounds on string reads proved here are those of the line parsers only.
- Signal delivery: the signal pipe is edge-triggered and read 10 bytes at a time, so the code does not promise that every signal is handled; in `NotifyProtocol` a stop or an exit is an event that may happen at any time.
- NotifyProtocol.NoLostWakeup: does not claim that the notified child is alive, because the parent never learns of a child's exit; a pool without any pid is excluded, as the code would then notify its own slot.
- NotifyProtocol: a blocking pipe is not modelled. A child's pipe ends when the parent and all children forked later have gone, since they inherit its write end (src/ProcessPool.h:79-101). Children do other work between events, which only delays them.
- ListenTrigger.EdgeTriggeredStuckIff: at rest means that nothing inside moves until the next event from outside; a later arrival raises a new edge.
- ChildTable: a client is reduced to its descriptor and code; what its receive loop computes is `RequestMachine.ReqStatMach.Process`, and `ClientEnd` is what the two share. `accept` is taken to return a descriptor below the table size that is not already open. Nothing is said of the descriptors of a child that has died in an undefined line.
- TimerSortedList: `tail_` is updated as the code does but nothing is claimed about it, because it is not updated on append or by a tick and nothing reads it. The destructor is not modelled.
- TimerSpec.AlarmFires: says which timers fire, not which connections their handlers close; that is `TimedChat`.
- TimedChat: states are values (the swap in place is `PollScan.ChatTable.ReplaceAndClose`), entries are counted from the first client entry, a timer that has been freed is never found again even if its memory is reused, messages are not sent on, and a run is not followed past a failed assertion or a removal from an empty table.
- PollScan.SentExact: a send never fails here; the program sends without MSG_NOSIGNAL or a handler for SIGPIPE, so one to a client that has hung up can end the server.
- PollScan.ChatTable.ScanClients: one scan takes at most one text per descriptor, which is all a pass can receive since it visits each client once.
- The copies of the parser in examples/multitasking and of the scan in examples/framework-intro/group_chat_service_sio.cc.
