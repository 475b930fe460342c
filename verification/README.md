# Mini-PGW, modelled and proved in Dafny

The project models the server of the mini-PGW: the session manager and its CDR
log, the main event loop with its four-state shutdown, the TCP framing and
command handling, the UDP front end, the batching database CDR writer and the
indexed file CDR writer. `dafny verify dfyconfig.toml` checks all of it.

| file | component |
|---|---|
| `Protocol.dfy`, `TcpSerializer.dfy` | the seven-byte header and the wire codec, and what a stream of encoded messages means |
| `TcpFraming.dfy` | reassembly of a byte stream for any stateful handler, and the table of clients |
| `TcpHandler.dfy`, `TcpServer.dfy` | control commands over the session manager, and the server object |
| `Sessions.dfy`, `SessionLaws.dfy`, `SessionRuns.dfy`, `SessionManager.dfy` | the session manager: its state, its log, what each operation means, what runs of it keep, and the object |
| `Pacing.dfy` | the pace of the blocking graceful shutdown |
| `UdpServer.dfy` | datagram batches |
| `Environment.dfy` | the clock, uninitialised memory and send results as a tape read in order; the shutdown flag |
| `LoopSteps.dfy`, `ShutdownSafety.dfy`, `LoopService.dfy`, `EventLoop.dfy` | the main loop as steps, what holds in all its reachable states and how it ends, what it does for clients and subscribers, and the loop itself |
| `CdrBatching.dfy` | concurrent batching with transactions as a transition system for any number of flushing threads |
| `Flush.dfy`, `LoneFlush.dfy`, `DatabaseCdrWriter.dfy` | one flush among other threads, the same with one flushing thread in closed form, and the writer object |
| `CdrAccess.dfy`, `CdrText.dfy`, `FileCdrWriter.dfy` | what a request for recent records gets, lines of the CDR file and the offset index |
| `EndToEnd.dfy`, `Readback.dfy` | from the stopped server to the rows in the database, and from its log to the CDR file and back |

Objects whose fields the source changes in place are classes; each method is
proved equal to a step function on the object's abstract value (`Snapshot()`),
and the theorems are about runs of those step functions. Where a hash table's
order matters (`begin()`, the walk of the clean-up), the order is any order: the
methods choose nondeterministically and report the choice as a ghost result.
Time is in nanoseconds of the monotone clock.

## What the code does not do as promised

Each of these is proved, with the exact condition under which the promise holds.

- The blocking graceful shutdown never exceeds its rate iff every wait, which is
  the floored delay while all iterations were fast and only the iteration's own work
  after a slow one, is long enough (`Pacing.RateKeptExactly`), because
  `lastDeletionTime` is only updated after a sleep and the delay is a whole number of
  milliseconds. For a rate that divides 1000 this means that no fast iteration
  follows a slow one (`Pacing.DivisorRateKept`), and only those rates are safe at all
  (`Pacing.SafeRatesExactly`): at 600 per second 1000 sessions go in one second, at
  2000 all at once (`Pacing.RateExceeded`). The branch that should give up pacing
  after the session timeout is dead: `startDeletionTime - now` is never positive
  (`Pacing.NeverTimesOut`).
- The drain of the main loop keeps the configured rate iff the rate divides 1000, or
  is above it and the timer never fires (`ShutdownSafety.DrainRateKeptExactly`).
- The configuration accepts every positive shutdown rate, but the server can stop
  by itself iff the rate is 2 to 1000 (`ShutdownSafety.CanStopExactly`): at rate 1
  the timer's nanoseconds are a full second and are rejected, above 1000 the
  interval is zero and disarms the timer.
- A TCP client whose stream has a foreign version byte at the head of a message is
  never served again (`TcpSerializer.StuckExactly`, `TcpSerializer.StuckForever`).
  The server's own reply to an unknown command leaves the version unset and can do
  that to a reader of the replies (`TcpHandlers.UnknownReplySticks`).
- The database writer loses records when the batch of a refused BEGIN is restored
  although something was put into the buffer since it was last taken, be it by a
  write or by another flush that gave its batch back; at a COMMIT that fails; and at
  every rollback of rows already inserted, whether the ROLLBACK succeeds or not
  (`CdrBatching.NothingLostExactly`, `Flushing.FlushLosesExactly`). If nobody writes
  between a swap and the restoring of its refused BEGIN, nothing is lost that way, for
  any number of flushers (`CdrBatching.QuietLosesNothing`); that a batch was restored
  quietly itself is not enough (`CdrBatching.RestoredBatchIsLost`).
- Even on a database on which no statement ever fails by itself records may be lost
  iff there is more than one flusher (`CdrBatching.SafeFlushersExactly`), and there
  are two: the thread of the writer, and every request for recent records.
- A COMMIT or a ROLLBACK that fails and leaves its transaction open ends all
  committing (`CdrBatching.StuckExactly`, `CdrBatching.StuckForever`).
- An exception out of `accept` while connections are being refused is not caught and
  ends the main loop in the middle of its shutdown, with sessions whose end is never
  recorded (`ShutdownSafety.ShutdownBreaksOff`). Besides that only a failing wait for
  events breaks it off (`ShutdownSafety.BrokenOffExactly`).

## Model

| member | source | states |
|---|---|---|
| TcpSerializer.RoundTripExactly | src/pgw/common/TcpSerializer.cpp:7-51 | a message survives encoding and decoding iff its version is 1 and its length field equals its payload size |
| TcpSerializer.ParsedHeadIsEncoding | src/pgw/common/TcpSerializer.cpp:24-51 | whatever is decoded is well formed and its encoding is exactly the bytes at the head of the buffer |
| TcpSerializer.ExtensionStable | src/pgw/common/TcpSerializer.cpp:24-51 | a decoded message is unchanged by bytes appended later |
| TcpSerializer.JsonMsgQualifies | src/pgw/common/TcpSerializer.cpp:53-73 | a reply built from a JSON document carries its command, status and document, and round-trips iff its body is shorter than 2^32 bytes |
| TcpSerializer.WireLayout | src/pgw/common/TcpSerializer.cpp:7-20 | on the wire come version, command, status, the length with its lowest byte first, and the payload |
| TcpSerializer.BareRequest | src/pgw/common/TcpSerializer.cpp:24-51 | the seven bytes 1, command, 0, 0, 0, 0, 0 are the request of that command without a body |
| TcpSerializer.ParseConserves | src/pgw/server/TcpServer.cpp:208-225 | the greedy parse loses no byte: its messages re-encoded and its leftover are the buffer |
| TcpSerializer.ParseIsGreedy | src/pgw/server/TcpServer.cpp:208-225 | only well-formed messages are found and nothing more can be decoded from the leftover |
| TcpSerializer.ParseInPieces | src/pgw/server/TcpServer.cpp:198-226 | parsing what arrived and then leftover plus new bytes is parsing everything at once |
| TcpSerializer.StreamRoundTrip | src/pgw/common/TcpSerializer.cpp:7-51 | concatenated encodings of a list of messages parse back to exactly that list with nothing left |
| TcpSerializer.EncodingInjective | src/pgw/common/TcpSerializer.cpp:7-20 | distinct lists of messages have distinct encodings |
| TcpSerializer.StuckExactly | src/pgw/common/TcpSerializer.cpp:34-37 | no further bytes can make a buffer decodable iff its first byte is not the version |
| TcpSerializer.StuckForever | src/pgw/server/TcpServer.cpp:202-212 | once stuck, later bytes add no message and nothing is consumed |
| TcpFraming.FragmentationIndependence | src/pgw/server/TcpServer.cpp:198-226 | for any stateful handler, any split of a byte stream gives the same messages, replies, handler state and leftover as one greedy pass, also when the stream sticks or the handler or a send throws |
| TcpFraming.DriveFollowsParse | src/pgw/server/TcpServer.cpp:208-225 | the messages handled are the greedy parse of the stream, or a prefix of it up to a failure |
| TcpFraming.EveryRequestAnswered | src/pgw/server/TcpServer.cpp:214-232 | every handled message gets its reply, except a last one whose failure is what drops the client |
| TcpFraming.ServeByTurns | src/pgw/server/TcpServer.cpp:208-225 | serving a buffer at once equals handling, sending and erasing one message at a time |
| TcpFraming.DriveIsHandling | src/pgw/server/TcpServer.cpp:208-225 | each request of a buffer gets the handler's reply to it in the state that the requests before it left, and the last state is the one all of them left |
| TcpFraming.ConnectionMeans | src/pgw/server/TcpServer.cpp:126-171 | a connection is let into the table with nothing received or handled, and its descriptor told, iff the server runs, accepts and gets a socket; nobody else is touched, and an exception escapes iff one comes out of refusing |
| TcpFraming.ServerIndependence | src/pgw/server/TcpServer.cpp:174-233 | at the server itself, after any inputs, any arrival of a client's further bytes in non-empty chunks gives the same work, replies, handler state, leftover and fate of the client as one greedy pass |
| TcpFraming.ClientsNeverMix | src/pgw/server/TcpServer.cpp:126-244 | for any interleaving of accepts, removals, data and stops, a descriptor's messages since its last accept are the greedy parse of its own bytes |
| TcpFraming.ClientsNeverGrow | src/pgw/server/TcpServer.cpp:131-141 | after `stopAccepting` or a stop the set of clients never grows |
| TcpServers.TcpServer.HandleClientData | src/pgw/server/TcpServer.cpp:174-233 | the in-place buffer loop refines the framing step over the command handler, including every way to drop a client |
| TcpServers.TcpServer.AcceptNewClient | src/pgw/server/TcpServer.cpp:126-171 | a new client gets an empty buffer, unless stopped, no longer accepting or accept failed; an exception escapes exactly while connections are being refused |
| TcpHandlers.StartReplyIsTrue | src/pgw/server/TcpHandler.cpp:133-173 | with a JSON library that tells the results apart, the reply to START_SESSION says "created" iff the session was not there and now is, "exists", "rejected" and "error" each iff its reason holds, and nobody else came or went |
| TcpHandlers.StopReplyIsTrue | src/pgw/server/TcpHandler.cpp:176-202 | the reply to STOP_SESSION says "deleted" iff the session was there and now is not, "not_found" iff it was not; no other session goes, and the removal is recorded and counted |
| TcpHandlers.RequestMeans | src/pgw/server/TcpHandler.cpp:18-56 | a request does to the manager the creation or termination a valid START_SESSION or STOP_SESSION asks for and nothing else, and raises the shutdown flag iff it is SHUTDOWN |
| TcpHandlers.ReplyIsMarked | src/pgw/server/TcpHandler.cpp:18-214 | every reply carries its request's command and a status that tells unknown command, missing CDR writer and invalid IMSI from success, and there is none iff the IMSI of a START_SESSION or STOP_SESSION is no text |
| TcpHandlers.StatsReplyIsTrue | src/pgw/server/TcpHandler.cpp:58-72 | GET_STATS tells the counts of the log: active by replay, created, rejected, expired plus terminated and total |
| TcpHandlers.SessionsReplyIsTrue | src/pgw/server/TcpHandler.cpp:74-95 | GET_SESSIONS tells exactly the sessions active by the log, each with its age in completed seconds |
| TcpHandlers.ReplyReadableExactly | src/pgw/server/TcpHandler.cpp:18-56 | a reply decodes iff the command is known and the body below 4 GiB, or the unset version byte happens to be 1 |
| TcpHandlers.UnknownReplySticks | src/pgw/server/TcpHandler.cpp:48-54 | an unknown-command reply with another version byte lets earlier replies through and nothing after it |
| TcpHandlers.DriveEvolves | src/pgw/server/TcpHandler.cpp:18-56 | serving any bytes keeps the log invariant, never adds a session while draining and never shrinks the blacklist |
| TcpHandlers.TcpHandler.HandleRequest | src/pgw/server/TcpHandler.cpp:18-56 | dispatch refines the step function for all commands, including those that throw and a request for records when there is no CDR writer |
| SessionLog.EveryRunKeepsInv | src/pgw/server/SessionManager.cpp:44-144 | after any operations the log replays to exactly the active sessions, and created = active + expired + terminated, total = created + rejected, all equal to the counts in the log |
| SessionLog.StoriesAlternate | src/pgw/server/SessionManager.cpp:44-95 | per IMSI the CREATED and DELETED records alternate from CREATED, and it is active iff their number is odd |
| SessionLog.AlternationIsLawful | src/pgw/server/SessionManager.cpp:44-95 | conversely, alternating stories without ERROR make the log lawful |
| SessionLog.RecordsBalance | src/pgw/server/SessionManager.cpp:44-95 | each IMSI has as many DELETED as CREATED records, plus one if active |
| SessionLog.CleanLeavesTheYoung | src/pgw/server/SessionManager.cpp:126-144 | whatever the order of the walk, exactly the sessions younger than the timeout remain |
| SessionLog.CleanRecordsEachOnce | src/pgw/server/SessionManager.cpp:89-144 | a clean-up writes exactly one DELETED per removed session and counts each as expired |
| SessionLaws.CreationMeans | src/pgw/server/SessionManager.cpp:44-87 | while draining, or for an active IMSI, a creation changes nothing; for a blacklisted one it is recorded and counted as rejected; otherwise the session is there since now, recorded and counted, and no other is touched |
| SessionLaws.TerminationMeans | src/pgw/server/SessionManager.cpp:89-124 | a termination removes exactly an active session, recorded and counted, and changes nothing for an inactive IMSI |
| SessionLaws.SettingsFollow | src/pgw/server/SessionManager.cpp:33-45 | after any run an IMSI is blacklisted iff it was or a valid one was listed in it, and the manager drains iff it did or the run started that |
| SessionLaws.RefusalsAreRecorded | src/pgw/server/SessionManager.cpp:44-53 | in any run the REJECTED records of an IMSI are exactly the creations asked for it while blacklisted and not draining |
| SessionRuns.BlacklistedStaysOut | src/pgw/server/SessionManager.cpp:33-59 | an IMSI blacklisted while inactive stays inactive in every later state |
| SessionRuns.DrainingNeverAdds | src/pgw/server/SessionManager.cpp:44-45 | no operation adds a session once draining |
| SessionRuns.DrainAllEffect | src/pgw/server/SessionManager.cpp:97-109 | a number of drains removes that many sessions, each with one DELETED record and counted as terminated |
| SessionManagers.SessionManager.CreateSession | src/pgw/server/SessionManager.cpp:44-87 | creation refines its step, and the ERROR result and the "not inserted" branch are unreachable |
| SessionManagers.SessionManager.CleanTimeoutSessions | src/pgw/server/SessionManager.cpp:126-144 | erasing while iterating visits every entry once in some order |
| SessionManagers.SessionManager.GracefulShutdown | src/pgw/server/SessionManager.cpp:146-205 | n sessions take n+1 iterations, leave an empty table, n DELETED records and n more terminated, at the instants of the pacing function |
| Pacing.NeverTimesOut | src/pgw/server/SessionManager.cpp:173-176 | the emergency branch after the session timeout is never taken |
| Pacing.GapExactly | src/pgw/server/SessionManager.cpp:161-182 | an iteration waits out the delay iff all iterations so far were fast, and otherwise not at all |
| Pacing.RateKeptExactly | src/pgw/server/SessionManager.cpp:151-182 | no removal comes before its share of a second at the configured rate iff every wait, read off the lags, is that long |
| Pacing.DivisorRateKept | src/pgw/server/SessionManager.cpp:151-182 | at a rate that divides 1000 that holds iff no fast iteration follows a slow one |
| Pacing.SafeRatesExactly | src/pgw/server/SessionManager.cpp:151-182 | a rate is kept on all lags without a fast iteration after a slow one iff it divides 1000 |
| Pacing.RateExceeded | src/pgw/server/SessionManager.cpp:151-182 | at rate 600 without lags 1000 removals take one second, at 2000 any number takes no time |
| Pacing.RateBroken | src/pgw/server/SessionManager.cpp:151-182 | at 10 per second, after one iteration of 100 ms the next removal follows with no gap |
| Pacing.PacedFromStart | src/pgw/server/SessionManager.cpp:151-182 | with fast iterations removal n starts no earlier than n delays after the start |
| Pacing.RemovalsFollowGaps | src/pgw/server/SessionManager.cpp:155-190 | each removal comes as long after the one before it as the pause of its iteration says |
| UdpServers.DecidedExactly | src/pgw/server/UdpServer.cpp:74-102 | the datagrams a batch decides on are the longest prefix in which nothing ends the batch and only the last answer may fail |
| UdpServers.RepliesExactly | src/pgw/server/UdpServer.cpp:66-103 | exactly one reply per datagram decided on, in order and to its sender, except a last one that cannot be sent, "created" exactly for the first occurrence of each valid, non-blacklisted, inactive IMSI while not draining |
| UdpServers.SessionsGrowExactly | src/pgw/server/UdpServer.cpp:66-103 | the session set grows by exactly those IMSIs, answered or not |
| UdpServers.BatchMeans | src/pgw/server/UdpServer.cpp:66-103 | a batch does to the manager a creation for each valid payload it decides on, at the time it does, and nothing else |
| UdpServers.UdpServer.ProcessPending | src/pgw/server/UdpServer.cpp:66-103 | the receive loop refines the batch function and leaves the rest of the queue after an empty datagram or an exception out of receiving or sending |
| ShutdownSafety.RunAdvances | src/pgw/server/Server.cpp:291-381 | along any run the phase and the clock never go back, nothing is added once draining, no client once accepting stopped |
| ShutdownSafety.ReachableInv | src/pgw/server/Server.cpp:291-381 | in every reachable state draining goes with the phase, STOPPING and STOPPED have an empty table, the expirations read are those up to the last read and the sessions drained no more, and the log invariant holds |
| ShutdownSafety.StoppedIsClean | src/pgw/server/Server.cpp:306-344 | every run that reaches STOPPED has no session and no client, and every IMSI has equally many CREATED and DELETED records |
| ShutdownSafety.AgeBound | src/pgw/server/Server.cpp:373-379 | in every reachable state, with the last check at most d ago, every session has an age from 0 to less than timeout + 3 s + d |
| ShutdownSafety.DrainProgress | src/pgw/server/Server.cpp:331-345 | while still draining, sessions left plus expirations read since never exceed the sessions at first, however batched and whatever interleaves |
| ShutdownSafety.DrainDeadline | src/pgw/server/Server.cpp:299-345 | a loop still draining, with n sessions and k expirations read at some earlier moment, has last read the timer less than k+n+1 intervals after arming it |
| ShutdownSafety.DrainEnds | src/pgw/server/Server.cpp:299-345 | from that moment on one more reading of the timer and the head of the next turn stop the server |
| ShutdownSafety.DrainRateKeptExactly | src/pgw/server/Server.cpp:283-344 | in every run of whole turns the sessions drained are within the configured rate times the time since arming iff the rate divides 1000 or is above it, and then at every moment within the turns too |
| ShutdownSafety.CanStopExactly | src/pgw/server/Server.cpp:283-344 | some run of whole turns of the loop reaches STOPPED iff the configured rate is 2 to 1000 |
| ShutdownSafety.BrokenOffExactly | src/pgw/server/Server.cpp:317-360 | the loop is left without having stopped iff at some step waiting for events failed or an exception came out of refusing a connection |
| ShutdownSafety.ShutdownBreaksOff | src/pgw/server/TcpServer.cpp:131-141 | with any configuration a run of two whole turns leads to a loop so left while draining, with a CREATED record whose DELETED is never written |
| ShutdownSafety.ServerKeepsClientsApart | src/pgw/server/Server.cpp:326-370 | in every reachable state of the whole server each TCP client was served the parse of its own bytes only |
| LoopService.ClientIsServed | src/pgw/server/Server.cpp:361-369 | a readable client of a loop that goes on is served what it sent: work, replies, handler state, leftover and fate are those of one pass over its leftover and the new bytes, and nobody else is touched |
| LoopService.SilentClient | src/pgw/server/TcpServer.cpp:186-194 | without data a client is dropped iff the receive failed or its peer is gone, and nothing else changes |
| LoopService.TableFollowsEvents | src/pgw/server/Server.cpp:352-369 | in every reachable state the client table holds exactly the descriptors let in while RUNNING and not dropped since, and a descriptor's bytes are exactly what the events brought from it since |
| LoopService.ClientsAreServedWhatTheySent | src/pgw/server/Server.cpp:352-369 | so each client in the table was served every complete message of what the events brought from it, and its buffer holds the rest |
| LoopService.DatagramsAreServed | src/pgw/server/Server.cpp:348-350 | until the servers stop a readable UDP socket is taken in batches: each datagram decided on gets the answer it deserves, the manager does what the batch asks for, and the rest waits |
| LoopService.FlagIsAsked | src/pgw/server/TcpHandler.cpp:204-214 | in every reachable state the shutdown flag is up iff HTTP or a SHUTDOWN among the requests a client was served asked before |
| LoopService.ShutdownStartsExactly | src/pgw/server/Server.cpp:294-304 | at the head of a turn of a running loop the shutdown starts iff it was asked for, and sessions and clients are left as they are |
| LoopService.TimerRemovesExactly | src/pgw/server/Server.cpp:331-345 | a reading of the drain timer removes one session per expiration due while there are any, recorded and counted, and one expiration more than sessions ends the draining |
| LoopService.CleansUpExactly | src/pgw/server/Server.cpp:372-379 | a turn cleans up iff more than three seconds have passed since the last time, and then exactly the sessions younger than the timeout stay |
| LoopService.TurnWithEvents | src/pgw/server/Server.cpp:291-379 | after the head of a turn the events of a batch are taken in their order and the periodic part has the last word |
| EventLoops.EventLoop.RunEventLoop | src/pgw/server/Server.cpp:232-382 | the loop over its component objects refines the step semantics, turn by turn and event by event |
| EventLoops.RunServer | src/pgw/server/Server.cpp:81-130 | a server from its start that has stopped leaves its objects with no sessions and a balanced log |
| CdrBatching.ExactlyOnePlace | src/pgw/server/DatabaseCdrWriter.cpp:73-147 | for any number of flushers, any interleaving and any failures, each record written is in exactly one place, so none is committed twice or invented |
| CdrBatching.AtRestAllCommitted | src/pgw/server/DatabaseCdrWriter.cpp:73-147 | with all threads idle and nothing buffered or pending, the table holds exactly the history without the ledger, however many flushers there were |
| CdrBatching.TransactionIsLock | src/pgw/server/DatabaseCdrWriter.cpp:91-143 | that the connection is in a transaction iff exactly one flusher is between BEGIN and its end holds iff no COMMIT or ROLLBACK has left its transaction open |
| CdrBatching.RunKeepsLock | src/pgw/server/DatabaseCdrWriter.cpp:91-143 | in any run at most one flusher is inside the transaction and the pending rows are what it inserted of its batch |
| CdrBatching.BatchesAreAtomic | src/pgw/server/DatabaseCdrWriter.cpp:108-143 | a successful COMMIT appends the whole batch of its thread in order, and nothing else changes the committed rows |
| CdrBatching.LostExactly | src/pgw/server/DatabaseCdrWriter.cpp:90-147 | a record neither committed nor buffered, queued or in a transaction that somebody will end is in the ledger or in a transaction without an owner, and conversely |
| CdrBatching.LossesExactly | src/pgw/server/DatabaseCdrWriter.cpp:100-143 | after any run a step loses exactly, and for the first time, the inserted part of a batch at a ROLLBACK, successful or not, a batch whose COMMIT fails in either way, or what the buffer holds at a restoring swap |
| CdrBatching.LossIsFinal | src/pgw/server/DatabaseCdrWriter.cpp:90-147 | what is lost is never committed, whatever happens next |
| CdrBatching.StuckForever | src/pgw/server/DatabaseCdrWriter.cpp:99-106 | with a transaction left open nothing is ever committed again |
| CdrBatching.StuckExactly | src/pgw/server/DatabaseCdrWriter.cpp:99-143 | a run ends there iff some COMMIT or ROLLBACK in it, be it a single one, left its transaction open |
| CdrBatching.OrderKept | src/pgw/server/DatabaseCdrWriter.cpp:90-162 | with one flusher and no failing INSERT or COMMIT, committed, pending, queued and buffered rows are an order-preserving subsequence of the history |
| CdrBatching.NothingLostExactly | src/pgw/server/DatabaseCdrWriter.cpp:90-147 | a run with any number of flushers and any failures has lost nothing iff no batch of a refused BEGIN was restored after something was put into the buffer since it was last taken, no inserted row rolled back and no COMMIT failed |
| CdrBatching.QuietLosesNothing | src/pgw/server/DatabaseCdrWriter.cpp:90-147 | with any number of flushers, no failing INSERT or COMMIT and no write between a swap and the restoring of its refused BEGIN, nothing is lost |
| CdrBatching.RestoredBatchIsLost | src/pgw/server/DatabaseCdrWriter.cpp:99-106 | of two refused flushes the second restoring drops the batch of the first, though nobody wrote since its own swap |
| CdrBatching.SafeFlushersExactly | src/pgw/server/DatabaseCdrWriter.cpp:90-171 | on a database on which no statement fails by itself every run loses nothing iff there is at most one flusher |
| CdrBatching.WholeLineExactly | src/pgw/server/DatabaseCdrWriter.cpp:90-162 | with one flusher they are the whole history iff no write ever fell between a swap and the restoring of its refused BEGIN |
| CdrBatching.FinalFlushCommitsAll | src/pgw/server/DatabaseCdrWriter.cpp:49-56 | a successful last flush after such a run leaves the committed rows equal to the entire history |
| DatabaseCdrWriters.DatabaseCdrWriter.Flush | src/pgw/server/DatabaseCdrWriter.cpp:90-147 | the flush of any thread executes exactly its script of steps, with any steps of any other threads, writing or flushing, before each of its own |
| LoneFlushes.FlushIsRun | src/pgw/server/DatabaseCdrWriter.cpp:90-147 | with one flushing thread, others only writing, that script leads to the stated buffer, rows, transaction and ledger in each of its outcomes |
| Flushing.FlushLosesExactly | src/pgw/server/DatabaseCdrWriter.cpp:99-143 | among any number of other threads a flush of a non-empty buffer loses records itself iff BEGIN is refused and something is put into the buffer after somebody last takes it, or an INSERT after the first fails, however ROLLBACK ends, or COMMIT fails, however it leaves the transaction |
| LoneFlushes.LoneFlushLosesExactly | src/pgw/server/DatabaseCdrWriter.cpp:99-143 | with one flushing thread that is: iff BEGIN is refused while others write, or an INSERT after the first or COMMIT fails |
| LoneFlushes.FlushSticksExactly | src/pgw/server/DatabaseCdrWriter.cpp:99-143 | with one flushing thread a flush leaves a transaction without an owner iff it found one, or an INSERT and then ROLLBACK fail, or COMMIT fails and leaves it open |
| CdrText.ParseLine | src/pgw/server/FileCdrWriter.cpp:107-127 | the splitting loop yields the first three comma-separated parts, trimmed |
| CdrText.LineRoundTripExactly | src/pgw/server/FileCdrWriter.cpp:57-127 | writing a line and parsing it are inverse on a record iff its fields have no comma, newline or surrounding blanks |
| FileCdrWriters.RereadExactly | src/pgw/server/FileCdrWriter.cpp:90-98 | records come back field for field iff all are clean |
| CdrAccess.RecentAreLast | src/pgw/server/FileCdrWriter.cpp:86-91 | what a limit grants of a log are its last records in order, as many as the least of the limit, 100 and the count |
| FileCdrWriters.FileCdrWriter.constructor | src/pgw/server/FileCdrWriter.cpp:9-32 | flushing the banner puts the output offset at the end of whatever file was there |
| FileCdrWriters.FileCdrWriter.WriteAction | src/pgw/server/FileCdrWriter.cpp:45-69 | index entry i stays the byte offset of line i, however much of its buffer the stream writes out |
| FileCdrWriters.FileCdrWriter.GetRecentRecords | src/pgw/server/FileCdrWriter.cpp:71-101 | the result has no more records than asked for, than 100 and than there are, but as many as one of these, and they are the last ones in write order, as their lines read back |
| Readback.LogReadsBackExactly | src/pgw/server/FileCdrWriter.cpp:57-127 | in every reachable state of the server its whole log reads back record by record iff the time stamps are clean, whatever subscribers and clients send |
| Readback.RepliesFromFile | src/pgw/server/TcpHandler.cpp:98-128 | in every reachable state the reply to GET_CDR tells the last records of the log, as many as the least of the limit, 100 and the count, and, times apart, these are what the file writer given the log returns from its file, whatever the time stamps |
| EndToEnd.TableBalancesExactly | src/pgw/server/Server.cpp:291-381 | once the server has stopped and its log has gone through any number of flushers with any failures, the committed rows of an IMSI have as many CREATED as DELETED iff its lost rows have |
| EndToEnd.QuietTableBalances | src/pgw/server/DatabaseCdrWriter.cpp:90-147 | and they are balanced after a quiet run without failing INSERT or COMMIT, for any number of flushers |
| EndToEnd.LastFlushTellsAll | src/pgw/server/DatabaseCdrWriter.cpp:49-67 | after a clean run of one flusher a successful last flush leaves the stopped server's whole log in the table in order, balanced for each IMSI |

## Left out

- Sockets, epoll registration, DNS and descriptor flags: events, received data and accepted descriptors are inputs, sent bytes are recorded outputs. Deregistering a descriptor from epoll has no counterpart. The drain timer is its arming instant and the expirations read from it.
- `TcpServer::processEvent` (it may erase from the map it iterates) is not called by the main loop and is not part of this model.
- SQLite itself: only the outcomes of BEGIN, INSERT, COMMIT and ROLLBACK. A failed INSERT is assumed to leave the transaction open until ROLLBACK; failures on which SQLite rolls back by itself are not part of this model. Nor are the recent-records query with its order by timestamp and the record count.
- The wake-up conditions of the flushing thread (batch size 100, three seconds) and the stop flag: any thread may flush at any time, which covers them.
- nlohmann JSON: reading and writing documents are function values; a value that is not a string throws, as in the source.
- TcpHandlers.TcpHandler.HandleRequest: an object without the `imsi` key is not part of this model, because the source then indexes a const object with a missing key, which has no defined result; and the reply to GET_CDR is made from the log the writer was given, without the time stamps; that the file writer would return those records is Readback.RepliesFromFile.
- The HTTP server is only the event that raises the shutdown flag; its concurrent read of the session table is a memory-model matter.
- The uptime in the reply to GET_STATS.
- Configuration, logging, factories, client and build: only "timeout and rate are positive" is used.
- Exceptions of the CDR writers, allocation failure and 64-bit counter overflow are assumed absent; counters are naturals.
- `isValidImsi`'s digit test is the ASCII one; the locale of `isdigit` is not modelled.
- Other processes appending to the CDR file, and the closing line its destructor writes.
