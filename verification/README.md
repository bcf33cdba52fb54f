# udtgate in Dafny

udtrelay carries TCP connections through a UDT tunnel. An application speaks SOCKS 4 to a relay in the
CLIENT role; that relay passes the request over UDT to a relay in the SERVER role, which connects to the
destination; from then on bytes flow both ways. This project models that program and proves what it does
in every run. `dafny verify dfyconfig.toml` checks the whole of it.

| file | models |
|---|---|
| Ring.dfy | the ring buffer of src/include/loopbuffer.h, as a class over an array, refined to a FIFO queue |
| Worker.dfy | the select-driven relay of src/lib/worker.cpp on two such rings |
| SocketIo.dfy | `readn` and `writen` |
| Forwarding.dfy | the two threads of the live path, their `shutdown` flag, the joins and the closes |
| EndToEnd.dfy | application, CLIENT, tunnel, SERVER and destination: the handshake and everything after it |
| Minisocks.dfy | the `connect` that applications are given |
| Access.dfy | `check_source` and the admission test |
| PollingSelect.dfy | the polling `select`, its time budget, and the descriptor sets |
| UdpProbe.dfy | `check_udp_buffer` |
| Split.dfy | `split` |
| Basics.dfy | octets, options and a few facts that several files need |

## How it is modelled

The kernel and the UDT library are an environment that may give any answer within its contract: short
counts, end of file, errors, interrupts. An answer is clipped to the count offered, so every theorem holds
for every answer that stays within the offer. Threads and relays are step systems: an event that is not the
next step of its party changes nothing, and a run is any sequence of events, so every interleaving and
every cutting into chunks is covered. The `shutdown` flag is read and written atomically.

Loops and objects that the source updates in place are methods and classes here (`Loopbuffer`, `Direction`,
`Relay`, `FdSet`, `Probe`, `Library`, and the loops of `readn`, `writen`, `select`, `check_udp_buffer`,
`check_source`, `memand` and `split`), each proved against a function of its old state, about which the
lemmas then speak.

## Where the code falls short of its intent

Each of these is kept as the code has it. The theorem named gives the exact condition under which the
intended property holds, or, where it never does, what holds in its place.

- The ring assigns `atom = 0` in a test (loopbuffer.h:18) and uses `>` where an empty ring needs `>=`
  (line 38). `Worker.MovesBytesIff`: some run of the worker moves a byte if and only if both are repaired.
- The reverse direction of the worker reads `fd_in` and writes `sd` (worker.cpp:163, 183).
  `Worker.RelaysIff`: with a working ring the descriptors carry the right streams in every run if and only
  if both lines are repaired; each can be repaired by itself in the model. The theorems on the ring and the
  worker are stated for any choice of repairs unless they name one; the ones that speak of moving bytes are
  about the repaired form.
- The worker ignores end of file on `fd_in` (worker.cpp:132-135), so it is over exactly when the forward
  direction has failed and the reverse one is shut (`Worker.StatusBits`). It fills the write set from the
  read set (lines 92-97), so a direction that has bytes to write does nothing while its source is not
  readable (`Worker.QuietSourceStrands`). `Worker.HeldBytesMoveIff`: when every turn that finds the source
  readable also has a writable target, a write that takes something and a read that does not fail, a held
  byte moves if and only if there is such a turn, and as many of them as bytes are held deliver all of those,
  whatever is read meanwhile (`Worker.HeldBytesAreDelivered`). The timeout is dropped (lines 213-215). Nothing
  calls the worker: the call at udtrelay.cpp:750 is commented out, as ChangeLog says.
- Line 848 clears the flag that line 813 or 862 may have set. `Forwarding.FlagFallsIff`: a flag that is set
  can be cleared again if and only if `peer2sock_worker` is in its receive (line 836) or between that and
  line 848. `Forwarding.FlagIsNotMonotone` is a run in which it happens, and `Forwarding.ShutdownProtocol`
  what remains true in every run.
- An unsupported command is answered with 90 (udtrelay.cpp:683), where the SOCKS 4 memo of Ying-Da Lee asks
  for 91. `EndToEnd.GrantHonestIff`: 90 means a connection exactly for the other headers. Replies also echo
  version 4 where the memo says 0 (`EndToEnd.ReplyEchoesHeader`).
- The CLIENT takes the reply with one receive (line 732). `EndToEnd.ReplySplitIff`: the reply stays out of
  the data in all runs in which that receive returned k bytes if and only if k is 8 or less than 2.
  `EndToEnd.RefusalsHonestIff`: a reply other than 90 means that nothing is connected in all runs in which it
  returned k bytes if and only if k is at least 2; after a failed receive or one of a single byte the CLIENT
  refuses a CONNECT that the SERVER has granted.
- When the application ends its stream, `sock2peer_worker` of its CLIENT sets the flag and the other thread
  stops after its next receive, so the answer is cut (`EndToEnd.AnswerIsCut`). `EndToEnd.LateAnswerIff`: an
  answer that the destination begins after that arrives whole in some run if and only if it is not longer
  than `rcvbuffer`.
- The polling `select` applies its scale factor twice (socket_api.cpp:374, 411) and can wait for longer than
  its timeout. `PollingSelect.OvershootIff`: a quiet call does so if and only if the timeout is 10, 11 or at
  least 14 microseconds, when the system's select leaves its time argument alone; when that select puts the
  time not slept there, as Linux does, so that the second select of a round is given 0 (lines 379-384), the
  timeouts 1000, 1001 and 1002 are kept too. `PollingSelect.WaitIsBounded` is the bound in every case, and
  `PollingSelect.OvershootHappens` an example: 600 microseconds become 2000, or 1000.
- `check_udp_buffer` takes a first request of 8096 or less to be too big. `UdpProbe.CacheAgreesIff` and
  `UdpProbe.FitsIff` say exactly which requests are answered how.
- `split` undoes joining if and only if no proper part of the separator both begins and ends it
  (`Split.SplitUndoesJoinIff`).

## Model

| member | source | states |
|---|---|---|
| Ring.Loopbuffer.constructor | src/include/loopbuffer.h:14-20 | a new ring is the empty queue; the unit of transfer is 0 unless line 18 is repaired |
| Ring.Loopbuffer.GetReadSpace | src/include/loopbuffer.h:30-33 | the contiguous bytes readable from the abstract queue, at most one unit |
| Ring.Loopbuffer.GetWriteSpace | src/include/loopbuffer.h:34-39 | the contiguous space writable, with `>` or `>=` as the repairs say |
| Ring.Loopbuffer.Writen | src/include/loopbuffer.h:46-50 | the queue grows at its end by exactly the bytes stored at the write pointer |
| Ring.Loopbuffer.Readn | src/include/loopbuffer.h:51-55 | the queue loses exactly the bytes at the read pointer, which are its first ones |
| Ring.WritePointer | src/include/loopbuffer.h:46-50 | the write pointer is (read_p + size) % len |
| Ring.WindowKept | src/include/loopbuffer.h:34-50 | storing within the offered space never overwrites an unread byte, wrapped or not |
| Ring.WindowGrows | src/include/loopbuffer.h:46-50 | the stored bytes follow the unread ones in order across the wrap |
| Ring.WindowShrinks | src/include/loopbuffer.h:51-55 | reading yields the oldest bytes and leaves the rest in order |
| Ring.SpacesFit | src/include/loopbuffer.h:46-55 | taking no more than was offered satisfies the asserts of `writen` and `readn` |
| Ring.SpacesAreLargest | src/include/loopbuffer.h:30-39 | the offered spaces are the largest within the unit that keep to the data or the free bytes and to the storage, except that an unrepaired empty ring offers nothing to the writer |
| Ring.OffersAsMade | src/include/loopbuffer.h:14-33 | with line 18 repaired the unit given is kept and 0 means no unit; as written nothing is ever offered |
| Ring.WriteProgress | src/include/loopbuffer.h:18-39 | a ring offers write space iff it is not full, its unit is positive, and it is not empty or line 38 is repaired; it offers read space iff it is not empty and its unit is positive |
| Ring.DrainCallsExact | src/include/loopbuffer.h:30-33 | how many reads empty a ring: the units before the wrap plus those after it |
| Ring.TwoCallsDrain | src/include/loopbuffer.h:30-33 | with the unit equal to the length at most two reads drain any contents, two exactly when they wrap |
| Worker.Direction.Read | src/lib/worker.cpp:120-140 | one read half of a turn on the real ring is the read half of the step function |
| Worker.Direction.Write | src/lib/worker.cpp:141-158 | one write half and the closing of a drained direction |
| Worker.Relay.Turn | src/lib/worker.cpp:116-199 | one turn of the loop is the step function, for both directions, the shut bits and all descriptors |
| Worker.Relay.Loop | src/lib/worker.cpp:60-200 | the loop on two array rings is the run function about which the theorems speak |
| Worker.Conservation | src/lib/worker.cpp:60-200 | in every reachable state what a direction has read is what it has written followed by its ring, in order |
| Worker.TurnCounts | src/lib/worker.cpp:120-199 | how many bytes a turn reads and writes: what comes and fits, and what the write takes of the bytes held before the end of the storage |
| Worker.TurnBits | src/lib/worker.cpp:120-199 | which calls and end of files set which bits in a turn |
| Worker.FailedIff | src/lib/worker.cpp:120-199 | over every run a direction has failed iff a read of it has failed or a write that was made took nothing |
| Worker.StatusBits | src/lib/worker.cpp:60-199 | the forward shut bits agree and mean a failure; the reverse direction is shut iff it has failed, or reads no more and holds nothing, and has then delivered all unless it failed; the loop is over exactly when the forward direction has failed and the reverse one is shut; the ACTIVE bits are clear after every turn |
| Worker.ShutIsForever | src/lib/worker.cpp:120-199 | shut bits are never cleared and a direction with its W bit set never changes again |
| Worker.MovesBytesIff | src/include/loopbuffer.h:18-39 | some run moves a byte iff lines 18 and 38 are both repaired; otherwise every state keeps both rings and all descriptors empty |
| Worker.RelaysIff | src/lib/worker.cpp:160-195 | with a working ring, what arrives at each descriptor leaves at the right one in every run iff lines 163 and 183 are both repaired; with only one of them some run goes wrong; without the first nothing is read from `sd`, without the second nothing is written to `fd_out` |
| Worker.BytesAreMixed | src/lib/worker.cpp:160-195 | without the repair of line 163 all that both directions read is what came from `fd_in`, without that of line 183 all they write is what went to `sd` |
| Worker.EofDelivers | src/lib/worker.cpp:160-199 | from a turn that reads end of file on, as many writing turns as the ring holds bytes deliver everything and end the reverse direction |
| Worker.EofDrains | src/lib/worker.cpp:181-199 | the same once the R bit is set |
| Worker.QuietSourceStrands | src/lib/worker.cpp:92-199 | in either direction no byte is read, moved or written through any turns in which its source is not readable |
| Worker.BlockedTargetHolds | src/lib/worker.cpp:141-195 | in either direction nothing is written through any turns in which the target is not writable |
| Worker.HeldBytesMoveIff | src/lib/worker.cpp:92-199 | in either direction, when each turn with a readable source has a writable target, a write that takes something and a read that does not fail, a held byte moves iff there is such a turn |
| Worker.HeldBytesAreDelivered | src/lib/worker.cpp:92-199 | as many such turns as bytes are held deliver all of those, whatever is read meanwhile |
| Worker.PassesOnIff | src/lib/worker.cpp:92-199 | through such turns, whether or not the ring is empty, something is passed on iff something is read or a byte is held in one of them; so an empty ring passes something on iff something is read |
| SocketIo.Writen | src/lib/socket_api.cpp:142-161 | n with all n bytes out in order, or -1 with a proper prefix out; waiting only while retries outweigh the count |
| SocketIo.WritenMoves | src/lib/socket_api.cpp:142-161 | up to the first failure every write moves as many bytes as it says; the call is complete iff they are enough, else it has failed or waits with exactly those out |
| SocketIo.Readn | src/lib/socket_api.cpp:112-133 | the next bytes of the stream in the buffer, as many as the answers come to, fewer than n only at the end of the stream, -1 iff the last answer failed, the rest of the buffer untouched |
| Forwarding.ShutdownProtocol | src/relay/udtrelay.cpp:766-869 | under every interleaving: receiver done implies flag set; sender done implies flag set or receiver between 848 and 862; flag set implies a thread is done |
| Forwarding.OpenIff | src/relay/udtrelay.cpp:779-862 | in every run: both threads are in their loops and the flag is clear iff no thread has met the end of its stream, an error of its receive or a failing write |
| Forwarding.IdleThreadsGoOn | src/relay/udtrelay.cpp:779-839 | a timeout of the poll or an empty receive with the flag clear leads back to waiting and changes nothing |
| Forwarding.IdleThreadsStop | src/relay/udtrelay.cpp:779-862 | once one thread is done, the other, waiting for bytes that do not come, ends by that alone |
| Forwarding.ReceivesAreAnnounced | src/relay/udtrelay.cpp:779-790 | in every run sock2peer_worker has made no more receives than its poll has announced |
| Forwarding.EndMeansClosed | src/relay/udtrelay.cpp:746-759 | in every run each stage of start_child is reached only after the starts, joins and closes before it, a thread is done only once it has set the flag, and only a receive error makes the receiver clear it |
| Forwarding.FlagFallsIff | src/relay/udtrelay.cpp:832-862 | a flag that is set can be 0 again after some run iff the receiver is in its receive or on its way from there to line 848 |
| Forwarding.FlagIsNotMonotone | src/relay/udtrelay.cpp:848-862 | there is a run from the start in which the sender is done and the flag is 0 again |
| Forwarding.BytesPerReceive | src/relay/udtrelay.cpp:790-836 | in every run a thread has received at most one buffer for each receive counted |
| Forwarding.SenderWindsDown | src/relay/udtrelay.cpp:779-813 | once peer2sock_worker is done the other makes at most one more receive, of at most one buffer, and none unless past its test |
| Forwarding.ReceiverWindsDown | src/relay/udtrelay.cpp:832-862 | the same with the roles exchanged |
| Forwarding.SenderTerminates | src/relay/udtrelay.cpp:779-813 | once its partner is done, each step of the sender uses up one of the steps it had left |
| Forwarding.ReceiverTerminates | src/relay/udtrelay.cpp:832-862 | the same for the receiver |
| Forwarding.StepsAreFew | src/relay/udtrelay.cpp:766-869 | from every reachable state whose partner is done at most rcvbuffer + 4 steps remain, interrupted writes apart |
| Forwarding.NoDeadlock | src/relay/udtrelay.cpp:746-869 | from every reachable state some run joins both threads and closes both sockets without losing a byte that was not lost before |
| Forwarding.LinkConservation | src/relay/udtrelay.cpp:779-859 | at a loop head all received bytes are forwarded; at the end of either thread what is forwarded differs from what was received iff a write failed inside `writen`, and then a non-empty suffix of the last chunk is missing |
| Forwarding.StepsAreWriten | src/relay/udtrelay.cpp:800-803 | the single writes of the sender are one call of `writen`: same bytes out, and the branch taken is that of its result |
| Forwarding.ReceiverStepsAreWriten | src/relay/udtrelay.cpp:851-854 | the same for the receiver and its branches |
| Forwarding.ClosedAfterThreads | src/relay/udtrelay.cpp:746-759 | a socket is closed only when both threads are done, and nothing is transferred afterwards |
| EndToEnd.DestinationGetsPayload | src/relay/udtrelay.cpp:584-869 | for every request, payload, chunking and interleaving the destination gets a prefix of what follows the application's NUL |
| EndToEnd.PayloadArrivedIff | src/relay/udtrelay.cpp:766-869 | while the SERVER relays, the destination has the whole payload iff nothing of it is left in a socket, in the tunnel or in a thread |
| EndToEnd.ApplicationGetsData | src/relay/udtrelay.cpp:732-859 | after the reply the application gets a prefix of the unread rest of the reply followed by the destination's bytes; of the latter alone when the reply came whole |
| EndToEnd.AnswerArrivedIff | src/relay/udtrelay.cpp:732-869 | the same for the destination's bytes on their way to the application, when the reply came whole |
| EndToEnd.AnswerIsCut | src/relay/udtrelay.cpp:796-862 | once the CLIENT's sender has ended the application gets at most what its receiver holds and one more receive |
| EndToEnd.LateAnswerIff | src/relay/udtrelay.cpp:796-862 | an answer begun after the CLIENT's sender has ended arrives whole in some run iff it is not longer than `rcvbuffer` |
| EndToEnd.ReplySplitIff | src/relay/udtrelay.cpp:732-743 | the data stays clean in all runs with a reply receive of k bytes iff k is 8 or less than 2 |
| EndToEnd.RefusalsHonestIff | src/relay/udtrelay.cpp:732-743 | a reply other than 90 means that nothing is connected in all runs with a reply receive of k bytes iff k is at least 2 |
| EndToEnd.ReplyEchoesHeader | src/relay/udtrelay.cpp:675-740 | every reply is the application's own header with another code, even when it was received in part |
| EndToEnd.ReplyCodes | src/relay/udtrelay.cpp:601-740 | which code the application gets: 91 for another version and 90 for another command, with nothing connected, and for a CONNECT 90 exactly when relaying starts, 92 only when nothing is connected, 1 exactly when less than two bytes of the answer were received |
| EndToEnd.ConnectDecides | src/relay/udtrelay.cpp:622-661 | the destination is connected, relaying starts and 90 is answered exactly when the address is admitted and the system's connect succeeds; otherwise 92 |
| EndToEnd.PeerDecides | src/relay/udtrelay.cpp:717-731 | with the tunnel up the packet and a NUL go on and nothing is answered yet; without it nothing goes on and 92 is answered |
| EndToEnd.ServerScreens | src/relay/udtrelay.cpp:594-612 | whatever sends it, a whole header passes the SERVER iff it has version 4 and command 1, and is otherwise echoed with 91 |
| EndToEnd.HeaderInPieces | src/relay/udtrelay.cpp:594-597 | the header may come to the SERVER in any pieces, each of any size that is there |
| EndToEnd.ConnectionHasCause | src/relay/udtrelay.cpp:584-728 | in every run: a connection only after a successful connect of the SERVER, data of the destination only over a connection, bytes in the tunnel only after a successful connect of the CLIENT |
| EndToEnd.UnreachableHasCause | src/relay/udtrelay.cpp:631-728 | in every run: 92 for a CONNECT only after a failed connect of either relay or for an address that is not admitted |
| EndToEnd.GrantedMeansConnected | src/relay/udtrelay.cpp:622-743 | 90 for a CONNECT means the SERVER's connect to exactly that port and address has succeeded, after admission |
| EndToEnd.GrantHonestIff | src/relay/udtrelay.cpp:675-686 | 90 implies a connection in all runs iff the header has another version or the command CONNECT |
| EndToEnd.ServerNeverDrops | src/relay/udtrelay.cpp:601-612 | behind a CLIENT the SERVER's own version and command tests never fire |
| EndToEnd.EverythingCanArrive | src/relay/udtrelay.cpp:584-869 | for every admitted request, every payload and every answer of the destination some run delivers both whole |
| EndToEnd.ConnectIsHonest | src/minisocks/minisocks.c:131-185 | a granted minisocks request means a successful connect of the SERVER to its port and address |
| Minisocks.Library.GetServer | src/minisocks/minisocks.c:54-119 | the relay is known iff the variable, when it counts, names a host that resolves; once the status is decided the environment no longer matters |
| Minisocks.FirstValueDecides | src/minisocks/minisocks.c:78-113 | over any calls the first value that is not malformed decides the status for good |
| Minisocks.PendingIff | src/minisocks/minisocks.c:78-113 | a malformed value, and only that, is looked at again in the next call |
| Minisocks.Library.Connect | src/minisocks/minisocks.c:122-186 | the bytes sent, and exactly when 0, the system's code and each errno are returned, in terms of the environment and the answers of the system |
| Minisocks.SuccessMeansConnected | src/minisocks/minisocks.c:122-186 | a `connect` that returns 0 through both relays means the SERVER's own connect to that port and address has succeeded, after admission |
| Access.MemAnd | src/lib/utils.cpp:187-192 | each destination byte keeps the bits that the mask byte has, in place |
| Access.MatchesIff | src/lib/utils.cpp:97-165 | an entry lets in, in subnet mode, the addresses that agree with its own in every bit of its netmask, otherwise its own address; entries of another family, or without address or netmask, let in nothing |
| Access.CheckSource | src/lib/utils.cpp:83-138 | true iff some usable interface matches in the list as it was given, though the scan masks the list in place; it masks the entries up to the first match and no others |
| Access.AdmitsIff | src/relay/udtrelay.cpp:537-544 | without -N this host's addresses, with one -N its subnets bit by bit, with two everything |
| Access.AdmissionIsMonotone | src/relay/udtrelay.cpp:537-544 | a higher net_access admits at least as much |
| PollingSelect.EmbeddingRoundTrip | src/include/socket_api.h:28-36 | a descriptor gives back its handle and kind iff it is UDT or below the base |
| PollingSelect.MembersByKind | src/lib/socket_api.cpp:14-41 | each half of a set holds the handles of its own kind |
| PollingSelect.FdSet.Set | src/lib/socket_api.cpp:24-29 | adds exactly that descriptor, of either kind |
| PollingSelect.FdSet.Clr | src/lib/socket_api.cpp:30-35 | removes exactly that descriptor |
| PollingSelect.PollRounds | src/lib/socket_api.cpp:365-414 | ends at the first round that is not quiet or exceeds the budget, having asked for exactly the summed waits, the second of each round being what the first select left of `t` |
| PollingSelect.Select | src/lib/socket_api.cpp:339-415 | the result and the three sets come from the last round and the sets as they were at the call, NULL and shared sets included |
| PollingSelect.ResultAndSets | src/lib/socket_api.cpp:394-406 | when something is ready the returned sets are exactly the ready members of those passed in, else empty; the result is the number ready of both kinds, 0, or -1 only for an error with nothing ready |
| PollingSelect.TimeoutRounds | src/lib/socket_api.cpp:365-414 | a timeout comes after exactly QuietRounds rounds |
| PollingSelect.WaitIsBounded | src/lib/socket_api.cpp:353-411 | at most u/(2m+1) + 1 rounds and waits of at most 3u + 8m microseconds in all, whatever the first select leaves in `t` |
| PollingSelect.NoTimeoutIsOnePoll | src/lib/socket_api.cpp:353-406 | without a timeout, or with a negative one, there is one round without waiting |
| PollingSelect.OvershootBySteps | src/lib/socket_api.cpp:365-411 | a quiet call with timeout u and start value m waits for more than u iff u >= 4m + 2 if `t` is left alone; not for 10m <= u < 10m + 3 if it holds the rest |
| PollingSelect.OvershootIff | src/lib/socket_api.cpp:353-411 | the same in terms of the timeout alone: iff it is 10, 11 or at least 14, and but for 1000 to 1002 if the rest is reported; no other timeout is exceeded whatever is left in `t` |
| PollingSelect.OvershootHappens | src/lib/socket_api.cpp:374-411 | a timeout of 600 microseconds asks for waits of 2000 if `t` is left alone and of 1000 if the rest is reported |
| UdpProbe.HalveFinds | src/relay/udtrelay.cpp:936-946 | the halving finds a size the system takes that is at least half of the largest |
| UdpProbe.HalveIs | src/relay/udtrelay.cpp:936-946 | a size that is too big is halved, and the first of the halves that the system takes is found |
| UdpProbe.FreshAnswers | src/relay/udtrelay.cpp:924-960 | what a call answers, sets and remembers while no maximum is known: sizes at or below 8096 or negative as an int are never tried, an accepted size is remembered, any other is cut to its first accepted half |
| UdpProbe.MaximumIsFinal | src/relay/udtrelay.cpp:924-964 | once a maximum is known no calls change the caches, and it is what refused requests get |
| UdpProbe.AnswersAreSound | src/relay/udtrelay.cpp:924-964 | after any calls: checked sizes are accepted, the maximum is 0 or at least half the limit, positive answers are true and negative ones wrong only in the stated ranges |
| UdpProbe.FitsIff | src/relay/udtrelay.cpp:924-964 | exactly which sizes are answered positively in any state of the caches |
| UdpProbe.FitsForever | src/relay/udtrelay.cpp:924-964 | a size once found to fit is never refused later, nor is a smaller one |
| UdpProbe.CacheAgreesIff | src/relay/udtrelay.cpp:924-952 | a cached answer agrees with a fresh probe iff the size is 0 or above 8096 |
| UdpProbe.Probe.CheckUdpBuffer | src/relay/udtrelay.cpp:877-965 | the code with its static caches is the function the lemmas speak of, for each buffer separately |
| Split.SplitBy | src/lib/utils.cpp:194-211 | pieces free of the separator that join to the input |
| Split.SplitUndoesJoinIff | src/lib/utils.cpp:194-211 | splitting undoes joining for all separator-free pieces iff the separator has no border |
| Split.OneCharacterComesBack | src/lib/utils.cpp:194-211 | for a separator of one character it always does |

## Left out

- UDT itself, kernel sockets, `getaddrinfo`, rendezvous set-up and getifaddrs.cpp: foreign calls.
- Logging, option parsing, forking, signals, `setproctitle`, `dump_str`: process plumbing.
- `acl_table`: declared in src/include/udtgate.h, its source is not built.
- `setsockopt`, `getsockopt`, `accept` and the other one-call wrappers of SOCK_API, and `maxfdn`.
- EndToEnd.DestinationGetsPayload: assumes that the handshake's receives of the header and the user id succeed and its sends are complete, as the code does without looking; a failed receive there leaves stale bytes that are not modelled.
- EndToEnd.ApplicationGetsData: the same assumption; the receive of the reply may be short or fail.
- The SERVER returns at udtrelay.cpp:605 and 611 without closing; `Forwarding.ClosedAfterThreads` is about runs that reach the joins.
- Threads, `start_child` and the relays are step systems, not methods: their interleaving is the point. The loop of `writen` inside them is tied to the method by `Forwarding.StepsAreWriten` and `Forwarding.ReceiverStepsAreWriten`.
- A lost TCP or UDT connection shows only as errors and ends of file at the nodes; data still in flight when a socket is closed may never arrive, which a prefix property allows.
- Passing the accept loop's local socket by address to the child thread: each child starts with its own descriptor.
- Worker.Relay.Loop: `status` is kept as separate bits instead of one int; the 500 ms pause, the setsockopt calls, the exception sets and the final closes are not modelled, nor is the stop at the timeout, which line 214 never passes on.
- PollingSelect.Select: integers are unbounded; the 32-bit overflow of `timeval2utime` for timeouts beyond 2147 seconds is not modelled.
- UdpProbe.Probe.CheckUdpBuffer: the system takes exactly the sizes up to a limit and bind succeeds; the warning is printed or not without effect on the result and is omitted.
- Access.CheckSource: IPv4 only; the code copies too little of an IPv6 address (utils.cpp:107). The port comparison of `sockaddr_match` compares an address with itself and no caller asks for it.
- Minisocks.Library.Connect: the disabled configuration file (minisocks.c:58-71) is omitted.
- Split.SplitBy: needs a non-empty separator; with an empty one the program does not end.
