# Verification models of the Linux network programs

A Dafny 4.11 project that models the concurrent and stateful cores of this collection of Linux study programs and
proves what they are for. `dafny verify dfyconfig.toml` checks all of it.

The parts:

- **The HTTP request machine** (`http_connection.cpp`). `RequestMachine` is the two-level machine on values,
  `RequestGrammar` says without cursors or states which byte streams are requests and what they hold, and
  `RequestRoundTrip` prints requests. `HttpConnection` is the object itself: one `array<char>`, three cursors,
  pointers into the array, lines and tokens cut in place by writing NULs. The chain of results is: the object in
  place computes the machine, the machine computes the grammar, the cut of the stream into reads cannot be
  observed, and printing followed by parsing is the identity. The request line, the fields and the body length
  follow sections 3, 5 and 6.3 of RFC 9112, narrowed as the code narrows them.
- **The thread pool and the event loop** (`thread_pool.h`, `main.cpp`). `ThreadPool` holds the queue protocol as a
  transition system over any number of appenders and workers, one step for each statement between lock
  operations, and the queue as a class whose methods are paths of that system. `EventLoop` puts the pool behind
  an epoll loop and proves exclusive ownership of connections. `ServedConnections` puts the connection objects behind
  that loop, with `process_read` turning once per step, and proves that every verdict in every interleaving is that
  of the bytes delivered.
- **Producers and consumers** (`semaphore.c`, `pthread_condition.c`). `SharedList` is the heap-allocated list one
  statement at a time, with faults for dead and null nodes; `Semaphores` and `ConditionVariable` run any number
  of threads over it.
- **Ticket sellers** (`mutex.c`): `Tickets`, with a termination measure.
- **Reaping children** (`sigchild.c`, `server_process.c`): `Reaper`, for any script of block, fork, register and
  unblock calls, with one pending bit for any number of deaths.
- **I/O multiplexing** (`epoll_ET.c`, `epoll_LT.c`, `poll.c`, `select.c`): `Epoll` and `EchoLoops` for the two
  echo servers, `SlotTable` and `PollSelectLoops` for the slot table against the bit set, `PollAsWritten` for the
  bound of poll.c as it stands.

The numbers 5, 8, 20, 1000, 1024 and 2048 of the programs are parameters everywhere.

## Where the code does not do what it is for

The main models are the machines that the comments, enumerations and documentation of the programs describe. Each
departure of the text from them is named in a comment of the model. Where it decides what the program does, a
result about the text as it stands is proved beside the main one, mostly as an exact condition.

| text | intended | what is proved of the text |
|---|---|---|
| http_connection.cpp line 339, an ordinary byte ends the scan, and line 341, the end of the bytes is a complete line | the scan goes on, and the line is open | `RequestMachineAsWritten`: every call returns NO_REQUEST or writes through null (line 215), on every stream and every cut into reads |
| line 212, a line without blank is not looked at before line 215 writes to it | BAD_REQUSEST | the same |
| line 259 assigns | compares | `RequestDepartures`: no request is ever accepted |
| line 154 looks for a line in the body, and again after line 196 | the body is only counted | `RequestDepartures`: in one read, a request with a body is accepted exactly when its bytes start with a complete line that leaves the announced length behind it; the cut into reads is invisible exactly when one read accepts no request with a body |
| line 105 asks for the whole buffer size | the space left | `ReadsAsWritten`: a call writes outside the buffer exactly when the stream is whole, the buffer is not full at first, and what waits does not fit |
| line 300 may write one cell behind the buffer | a spare cell | `HttpConnection.ParseContent`: the spare cell is written only behind a body that ends with a full buffer |
| line 28 has no effect | registers one-shot | `EventLoop.OwnershipIff`, `RejectsIff` and `ServedConnections.ServedIff`: exclusive ownership, and verdicts that are those of the bytes delivered, hold exactly with this and the next line as intended |
| line 139 goes on to `modfd` after `close_conn` | returns | the same three; `EventLoop.QueuedIsReported`: the descriptor may be in use again, and a queued connection is then armed for output |
| poll.c line 86 compares `cfd` with itself | the highest slot used | `PollAsWritten`: which clients a turn reads, when none is ever starved, and when memory beyond the table is touched |
| main.cpp line 123 tests the number of connections, line 130 indexes with the descriptor | the index is in range | `UserArray`: the test keeps it in range exactly when the process holds no other descriptor below the limit |
| poll.c does not set `revents` before the first call | 0 | none |
| epoll_ET.c line 90 sets descriptor flags | status flags | `Epoll.NeverHangsIff`: the server can always go on exactly with non-blocking reads |
| epoll_ET.c line 118 assigns | compares | comment in `Epoll` |
| epoll_LT.c line 102 sends `strlen(buf) + 1` bytes | `len` bytes | `EchoLoops.EchoedIff`: a chunk comes back as sent exactly when its only NUL is its last byte |

## Model

| member | source | states |
|---|---|---|
| RequestMachine.Resume | FIN_project/Abandoned_webserver/http_connection.cpp:146-206 | A verdict on a prefix is unchanged by any extension; without one, the next call on more bytes gives verdict, fields and cursors of a single call on everything |
| RequestMachine.SplitInvisible | FIN_project/Abandoned_webserver/http_connection.cpp:95-206 | For every stream and every cut into chunks, feeding the chunks until a verdict gives the verdict, all parsed fields and both cursors of one read |
| RequestMachine.ResumeLine | FIN_project/Abandoned_webserver/http_connection.cpp:309-342 | When no line is complete only the checked cursor moves, and the scan taken up from there finds what a scan from the start would |
| RequestMachine.RunKeepsScanned | FIN_project/Abandoned_webserver/http_connection.cpp:309-342 | start <= checked <= read, and the scanned part of the current line holds neither CR nor LF, after every call |
| RequestMachine.BadLineIsFinal | FIN_project/Abandoned_webserver/http_connection.cpp:146-206 | After a line break that is not CRLF every later call returns NO_REQUEST and moves no cursor, whatever arrives |
| RequestMachine.NoVerdictMeans | FIN_project/Abandoned_webserver/http_connection.cpp:154-205 | NO_REQUEST means that the body is short, the line is open at the very end of the bytes, or the line is bad; nothing else |
| RequestGrammar.LinesArePrefix | FIN_project/Abandoned_webserver/http_connection.cpp:309-342 | The lines found, joined with CRLF, are a prefix of the bytes, and none holds a CR or LF |
| RequestGrammar.LinesOfJoin | FIN_project/Abandoned_webserver/http_connection.cpp:309-342 | Joining lines free of CR and LF and cutting them again is the identity, whatever follows |
| RequestGrammar.HeaderRun | FIN_project/Abandoned_webserver/http_connection.cpp:256-304 | From the first header line on, the machine's fold over lines equals: last Content-Length, last Host, any keep-alive, then a counted body |
| RequestGrammar.MachineIsGrammar | FIN_project/Abandoned_webserver/http_connection.cpp:146-342 | One call on a fresh connection gives verdict, strings, flags, length and cursors of the grammar, for every byte stream |
| RequestGrammar.FeedIsGrammar | FIN_project/Abandoned_webserver/http_connection.cpp:95-342 | The same for every cut of the stream into reads |
| RequestGrammar.Accepted | FIN_project/Abandoned_webserver/http_connection.cpp:146-304 | A stream that starts with a well-formed message is accepted, the parse holds that message's parts, and they can be read off the stream |
| RequestGrammar.AcceptedIff | FIN_project/Abandoned_webserver/http_connection.cpp:146-304 | GET_REQUSET exactly when the stream starts with a well-formed message, which is then unique and what the parse holds |
| RequestGrammar.RequestLineIff | FIN_project/Abandoned_webserver/http_connection.cpp:210-253 | A first line is good exactly when it is GET in any case, one blank or tab, a target that is a path or "http://" in any case with an authority and then a path, one blank or tab, HTTP/1.1 in any case; the url is that path |
| RequestGrammar.TargetIff | FIN_project/Abandoned_webserver/http_connection.cpp:240-248 | Stripping scheme and authority leaves a path exactly when the target is that path, or "http://" in any case, an authority without slash, and that path |
| RequestGrammar.NoPathIsBad | FIN_project/Abandoned_webserver/http_connection.cpp:240-248 | A target with the scheme and no later slash is bad, whatever the rest of the line |
| CStrings.FoldIff | FIN_project/Abandoned_webserver/http_connection.cpp:219 | The comparison of words ignores exactly the case of ASCII letters |
| CStrings.AtolReads | FIN_project/Abandoned_webserver/http_connection.cpp:281 | White space, an optional plus and leading zeros before a number, and anything but a digit behind it, do not change what `atol` reads |
| CStrings.AtolNothing | FIN_project/Abandoned_webserver/http_connection.cpp:281 | Without a digit where the number should be `atol` reads 0 |
| RequestRoundTrip.NamedField | FIN_project/Abandoned_webserver/http_connection.cpp:269-291 | What a header line means, for every name in any case, any run of blanks or tabs behind its colon, none included, and every value |
| RequestRoundTrip.HeaderBack | FIN_project/Abandoned_webserver/http_connection.cpp:256-293 | Every printed header, with its name in any case, any blanks and any value, is one non-blank line and reads back as what it meant |
| RequestRoundTrip.OtherIff | FIN_project/Abandoned_webserver/http_connection.cpp:269-291 | The parser passes over a header line exactly when it has no colon or another name before its first colon |
| RequestRoundTrip.HeadersBack | FIN_project/Abandoned_webserver/http_connection.cpp:256-293 | A printed header list gives back its last length, its last host, and whether some Connection header says keep-alive in any case |
| RequestRoundTrip.RequestLineBack | FIN_project/Abandoned_webserver/http_connection.cpp:210-253 | A printed request line, in any spelling, with or without scheme and authority, is one line and reads back its path and version |
| RequestRoundTrip.RoundTrip | FIN_project/Abandoned_webserver/http_connection.cpp:210-304 | Any printed GET request in any spelling, with or without scheme and authority, read in any pieces and with anything behind it, is accepted with the same path, version, host, linger flag, length and body bytes |
| CStrings.AtolOfDecimal | FIN_project/Abandoned_webserver/http_connection.cpp:277-282 | A length printed in decimal is read back by `atol` |
| RequestMachineAsWritten.NeverAnswers | FIN_project/Abandoned_webserver/http_connection.cpp:146-342 | As written, on every stream and cut, calls only return NO_REQUEST or write through null; the latter exactly when after some read the bytes are still empty or start with CRLF |
| RequestMachineAsWritten.BadIff | FIN_project/Abandoned_webserver/http_connection.cpp:154-175 | The intended machine answers BAD_REQUSEST exactly when the first complete line is not a good request line |
| RequestMachineAsWritten.AgreesIff | FIN_project/Abandoned_webserver/http_connection.cpp:146-342 | As written, a first call agrees with the intended machine exactly when the bytes are not empty, do not start with CRLF, do not start with a well-formed request, and their first line, if complete, is a GET line |
| RequestMachineAsWritten.RequestsIgnored | FIN_project/Abandoned_webserver/http_connection.cpp:309-342 | Every printed request is accepted by the intended machine and ignored as written |
| RequestDepartures.AcceptsIff | FIN_project/Abandoned_webserver/http_connection.cpp:154-289 | In one read with lines 154 or 259 alone as written: the same bad requests; accepted exactly when the intended machine accepts, line 259 compares, and, if the body is scanned, it starts with a line that leaves enough bytes; accepted in the same state |
| RequestDepartures.CutMayMiss | FIN_project/Abandoned_webserver/http_connection.cpp:95-206 | Any cut into reads gives the verdict of one read, or misses a request with a body, and the latter only with line 154 as written |
| RequestDepartures.BytesMissBodies | FIN_project/Abandoned_webserver/http_connection.cpp:154-196 | With line 154 as written no request with a body is ever accepted when the bytes come one by one |
| RequestDepartures.CutInvisibleIff | FIN_project/Abandoned_webserver/http_connection.cpp:95-206 | From a fresh connection, every cut gives the verdict of one read exactly when line 154 is as intended, or line 259 is not, or the bytes do not start with a request whose body starts with a complete line that leaves the announced length behind it; otherwise single bytes do not |
| RequestDepartures.SplitShows | FIN_project/Abandoned_webserver/http_connection.cpp:154-196 | Real bytes, for every good request line: a request with a body of one byte is accepted in one read, and gets no verdict read byte by byte with line 154 as written |
| HttpConnections.HttpConnection.constructor | FIN_project/Abandoned_webserver/http_connection.cpp:70-82 | `init` gives an empty buffer and the first state of the machine |
| HttpConnections.HttpConnection.Read | FIN_project/Abandoned_webserver/http_connection.cpp:95-124 | Succeeds when the stream is whole, not closed, and all that waits leaves a cell free; fails when it is closed, broken or does not fit; at exactly the capacity the kernel decides. What fits is appended in order and no parsed string, cursor or flag changes |
| ReadsAsWritten.Buffer.Read | FIN_project/Abandoned_webserver/http_connection.cpp:95-124 | Line 105 as written: a write outside the buffer exactly when the stream is whole, the buffer is not full at first, and what waits does not fit; success exactly when it fits and the stream is open |
| ReadsAsWritten.OneByteTooMany | FIN_project/Abandoned_webserver/http_connection.cpp:103-106 | For every buffer size one byte more than it holds, waiting at the first call, is written outside |
| HttpConnections.HttpConnection.ParseLine | FIN_project/Abandoned_webserver/http_connection.cpp:309-342 | In place: the status of the first line break, its CRLF turned into NULs, parsed strings kept; the branch for an LF behind an earlier CR is dead |
| HttpConnections.HttpConnection.GetLine | FIN_project/Abandoned_webserver/http_connection.h:108 | The C string at the line start is the received line cut at its first NUL |
| HttpConnections.HttpConnection.ParseRequestLine | FIN_project/Abandoned_webserver/http_connection.cpp:210-253 | In place: verdict, url, version and state are those of the machine on values, and only the two separators are overwritten |
| HttpConnections.HttpConnection.ParseHeaders | FIN_project/Abandoned_webserver/http_connection.cpp:256-293 | In place: one header line changes linger, length, host or state as on values, and nothing in the buffer |
| HttpConnections.HttpConnection.ParseContent | FIN_project/Abandoned_webserver/http_connection.cpp:296-304 | The body is complete exactly when the announced length has arrived; only the cell behind it becomes NUL, the spare one only behind a full buffer, and no parsed string changes |
| HttpConnections.HttpConnection.ProcessRead | FIN_project/Abandoned_webserver/http_connection.cpp:146-206 | In place: verdict, strings, flags and cursors are those of the machine on the bytes received; consumed cells differ from those bytes only at line breaks and separators of the first line, later ones only behind the body |
| HttpConnections.Serve | FIN_project/Abandoned_webserver/http_connection.cpp:95-206 | Reading and processing delivery by delivery on the object computes the grammar of the whole stream, or a read fails; that happens only when the stream reaches the capacity before it deserves a verdict, and always when it then exceeds it |
| ThreadPools.MutexKept | FIN_project/Abandoned_webserver/thread_pool.h:90-142 | Every step keeps that exactly the thread between lock and unlock holds the mutex |
| ThreadPools.TokensKept | FIN_project/Abandoned_webserver/thread_pool.h:90-131 | Every step keeps queue length = semaphore + appenders between push and post + workers between wait and pop |
| ThreadPools.TesterFinds | FIN_project/Abandoned_webserver/thread_pool.h:123-126 | A worker that passed `wait` and holds the lock sees a non-empty queue |
| ThreadPools.PoolSafe | FIN_project/Abandoned_webserver/thread_pool.h:90-142 | In every interleaving: tokens balance, no worker is in the empty-queue branch, accepted = taken followed by queued, at most max + 1 queued, mutual exclusion |
| ThreadPools.QueuedIsServed | FIN_project/Abandoned_webserver/thread_pool.h:90-142 | In every reachable state with a queued request some thread can go on without a new call |
| ThreadPools.ThreadPool.Append | FIN_project/Abandoned_webserver/thread_pool.h:90-105 | Rejects exactly above the limit, else the request is last in the queue; the call is a path of the protocol |
| ThreadPools.ThreadPool.Take | FIN_project/Abandoned_webserver/thread_pool.h:116-139 | A turn of `run` takes the oldest request and never finds the queue empty; the turn is a path of the protocol |
| EventLoop.WaitKeeps | FIN_project/Abandoned_webserver/main.cpp:97-108 | Reporting events moves armed connections into the batch and keeps exactly one handler for each open one |
| EventLoop.HeadKeeps | FIN_project/Abandoned_webserver/main.cpp:108-157 | Each branch of the event loop keeps exactly one handler for each open connection and none for a closed one |
| EventLoop.AppendStepKeeps | FIN_project/Abandoned_webserver/thread_pool.h:90-105 | So does each step of `append`, rejection included |
| EventLoop.WorkStepKeeps | FIN_project/Abandoned_webserver/thread_pool.h:116-142 | So does each step of a worker |
| EventLoop.FinishKeeps | FIN_project/Abandoned_webserver/http_connection.cpp:127-143 | So does the end of `process`, whether it re-arms for input, for output, or closes and returns |
| EventLoop.OwnershipSafe | FIN_project/Abandoned_webserver/main.cpp:108-157 | In every reachable state of the intended program each open connection has exactly one place: armed, delivered, being appended, queued, held by one worker, or parked; so no duplicates in the queue, no two workers on one, none queued and armed, and the main loop handles none that is queued or held |
| EventLoop.QueuedTwice | FIN_project/Abandoned_webserver/http_connection.cpp:26-31 | Without one-shot registration a run queues any one connection twice |
| EventLoop.OwnershipIff | FIN_project/Abandoned_webserver/http_connection.cpp:16-143 | Exclusive ownership in all reachable states, and each time also its consequences, exactly when new connections are registered one-shot and `process` returns after `close_conn` |
| EventLoop.CauseIff | FIN_project/Abandoned_webserver/main.cpp:111-157 | A step closes an open connection exactly when its peer is gone, its read or write failed, or its worker closes it |
| EventLoop.ClosedForCause | FIN_project/Abandoned_webserver/main.cpp:97-159 | In every run a connection that was open and no longer is had such a cause while it was open |
| EventLoop.QueueBelowOpen | FIN_project/Abandoned_webserver/main.cpp:137-143 | While a connection is being appended, the queue holds fewer requests than there are open connections |
| EventLoop.RejectsIff | FIN_project/Abandoned_webserver/main.cpp:123-142 | `append` never rejects in any reachable state exactly when registration is one-shot, `process` returns after `close_conn`, and at most max + 1 connections may be open (or none may) |
| EventLoop.QueuedIsReported | FIN_project/Abandoned_webserver/http_connection.cpp:137-141 | With line 139 as written, even with one-shot registration, a run puts an open connection into the queue and its event at the head of the batch, so that the main loop is about to write or close it |
| EventLoop.FloodReused | FIN_project/Abandoned_webserver/http_connection.cpp:137-141 | In the same way one connection is queued as often as the queue has room |
| ServedConnections.TurnKeeps | FIN_project/Abandoned_webserver/http_connection.cpp:146-206 | A turn of the loop in `process_read` by one worker keeps every connection on its way to the grammar of its bytes, and comes to it when the call returns |
| ServedConnections.DeliverKeeps | FIN_project/Abandoned_webserver/main.cpp:137-143 | Reading more bytes into a connection keeps the same for every connection |
| ServedConnections.ServedSafe | FIN_project/Abandoned_webserver/main.cpp:97-159 | In the intended program, in every interleaving of main loop, queue and turns of the workers: what `process_read` returns to a worker, and the parse it leaves, are the grammar and the feed of exactly the bytes delivered to that connection; a connection is armed for input, and read, exactly when its last call returned NO_REQUEST or there was none, and armed for output, and written, exactly when it has a verdict |
| ServedConnections.ProcessReturns | FIN_project/Abandoned_webserver/http_connection.cpp:146-206 | From every state `process_read`, running alone, returns after at most one turn for each byte not yet scanned and one more, with what one call of the machine gives |
| ServedConnections.ReadAfterVerdict | FIN_project/Abandoned_webserver/http_connection.cpp:26-31 | With line 28 as written a run makes `process_read` return a code that is not the verdict on the bytes delivered: the connection is read on and processed again after its verdict |
| ServedConnections.ProcessedTwice | FIN_project/Abandoned_webserver/http_connection.cpp:127-143 | So does a run with line 139 as written, even with one-shot registration: a descriptor used again is queued twice |
| ServedConnections.ServedIff | FIN_project/Abandoned_webserver/main.cpp:97-159 | What `process_read` returns and the parse it leaves are those of the bytes delivered, in all reachable states, exactly when registration is one-shot and `process` returns after `close_conn` |
| UserArray.IndexIff | FIN_project/Abandoned_webserver/main.cpp:120-130 | The index of a new connection is in range exactly when some descriptor below the limit is free |
| UserArray.NeverOutsideIff | FIN_project/Abandoned_webserver/main.cpp:123-130 | The test on the number of connections keeps the index in range, whatever is open, exactly when the process holds no other descriptor below the limit |
| UserArray.ReachesEnd | FIN_project/Abandoned_webserver/main.cpp:123-130 | Otherwise connections that come in a row pass the test and get an index beyond the array |
| SharedList.StepKeeps | thread（LWP）/thread_synchornization/semaphore（信号量）/semaphore.c:66-98 | Every statement keeps the list an acyclic chain of live nodes, exactly the allocated ones but for the one in hand, with the numbers of the log, and touches no dead or null node if the pop finds one |
| SharedList.Conserved | thread（LWP）/thread_synchornization/pthread_condition（条件变量）/pthread_condition.c:25-61 | For every last-in-first-out log: numbers pushed = numbers popped + numbers left, as multisets |
| Semaphores.AccountsKept | thread（LWP）/thread_synchornization/semaphore（信号量）/semaphore.c:58-107 | Every step keeps both semaphore equations over list length and program counters |
| Semaphores.HeadNotNull | thread（LWP）/thread_synchornization/semaphore（信号量）/semaphore.c:90-96 | A consumer past its semaphore and before its pop has a node to take |
| Semaphores.BufferSafe | thread（LWP）/thread_synchornization/semaphore（信号量）/semaphore.c:58-107 | For any capacity and threads, in every interleaving: both equations, length <= capacity, `head` non-null at each pop, no fault, last-in-first-out pops, conservation, and at rest the live nodes are exactly those listed |
| Semaphores.NoDeadlock | thread（LWP）/thread_synchornization/semaphore（信号量）/semaphore.c:58-107 | With a producer, a consumer and capacity at least one, some thread can move in every reachable state |
| ConditionVariable.WakeupsKept | thread（LWP）/thread_synchornization/pthread_condition（条件变量）/pthread_condition.c:21-75 | Every step, spurious wakeups included, keeps: awake consumers >= min(list length - pushes not yet signalled, consumers) |
| ConditionVariable.NoLostWakeup | thread（LWP）/thread_synchornization/pthread_condition（条件变量）/pthread_condition.c:21-75 | In every interleaving, while no producer is between push and signal, awake consumers >= min(list length, consumers) |
| ConditionVariable.ListSafe | thread（LWP）/thread_synchornization/pthread_condition（条件变量）/pthread_condition.c:25-61 | In every interleaving: no fault, well-formed list, last-in-first-out pops, conservation, and no leaked node while the mutex is free |
| ConditionVariable.ListedIsServed | thread（LWP）/thread_synchornization/pthread_condition（条件变量）/pthread_condition.c:46-75 | While the list is not empty and no producer holds the mutex, some consumer can go on by itself |
| ConditionVariable.ProducerTurn | thread（LWP）/thread_synchornization/pthread_condition（条件变量）/pthread_condition.c:25-36 | Alone with the mutex free a producer pushes its number in seven steps and wakes a sleeping consumer if there is one |
| ConditionVariable.ConsumerTurn | thread（LWP）/thread_synchornization/pthread_condition（条件变量）/pthread_condition.c:50-61 | Alone with the mutex free and a node in the list a consumer pops the number on top in seven steps |
| ConditionVariable.ConsumersPop | thread（LWP）/thread_synchornization/pthread_condition（条件变量）/pthread_condition.c:46-75 | In a run of consumers alone each step counts against a measure, and the numbers popped are those of the list from the first on |
| ConditionVariable.Drained | thread（LWP）/thread_synchornization/pthread_condition（条件变量）/pthread_condition.c:46-75 | Once production stops, from every reachable state, the consumers make at most seven steps for each node and each of them, and when none can go on the list is empty and its numbers were popped in order |
| Tickets.StepDecreases | thread（LWP）/thread_synchornization/mutex（互斥锁）/mutex.c:19-46 | Every step lowers 6 * tickets left + ranks of the program counters |
| Tickets.SaleSafe | thread（LWP）/thread_synchornization/mutex（互斥锁）/mutex.c:19-46 | In every interleaving the log is N, N - 1, ... down to what is left, never below one; a run has at most 6 * N + 4 * T steps, stops only when all threads returned, and then all N are sold once each |
| Tickets.SellAll | thread（LWP）/thread_synchornization/mutex（互斥锁）/mutex.c:48-65 | Under any scheduler the program ends with everything sold in order |
| Reaper.ChildrenPartitioned | Process/IPC进程间通信（host）/_signal信号/_SIGCHILD/sigchild.c:16-62 | In every run of any script forked = alive + zombies + reaped, pairwise disjoint |
| Reaper.RememberedIff | Process/IPC进程间通信（host）/_signal信号/_SIGCHILD/sigchild.c:16-62 | Zombies exist only while SIGCHLD is pending or the reap loop runs, in all runs, exactly when from the first fork on the signal is always blocked or handled |
| Reaper.ProgramsRemember | NetCode/concurent_socket（并发实现）/server_process.c:37-75 | Both programs meet that condition for any number of children; sigchild.c without its mask does not |
| Reaper.AllReaped | Process/IPC进程间通信（host）/_signal信号/_SIGCHILD/sigchild.c:16-62 | With all children dead and the handler active, the parent makes at most zombies + 5 steps, and when it has none left every child forked is reaped |
| Reaper.ProgramsEnd | Process/IPC进程间通信（host）/_signal信号/_SIGCHILD/sigchild.c:33-62 | When main is through, either program has forked all n children, with the handler registered and the signal unblocked |
| Reaper.ProgramsReapAll | Process/IPC进程间通信（host）/_signal信号/_SIGCHILD/sigchild.c:16-62 | Then, once all children are dead, the parent makes at most zombies + 5 steps, and when it has none left exactly the n children are reaped |
| Reaper.EveryRunReaps | Process/IPC进程间通信（host）/_signal信号/_SIGCHILD/sigchild.c:16-81 | Every whole run of either program, whenever its children die, has at most 6 * n + 3 steps, and where it can go no further exactly the n children are reaped |
| ProcessTables.ProcessTable.WaitPid | Process/IPC进程间通信（host）/_signal信号/_SIGCHILD/sigchild.c:21-27 | Reaps one zombie if there is one, else tells living children from none |
| ProcessTables.ProcessTable.Handler | NetCode/concurent_socket（并发实现）/server_process.c:14-33 | While other children die at any moment, all zombies that the delivery stood for are reaped, only dead children are, and one that dies behind the last wait leaves the signal pending |
| Epoll.NotStrandedKept | NetCode/IO/IO.md:160-172 | Every edge-triggered step keeps: unread bytes, or an end of file not yet seen, mean on the ready list, in the batch, or inside the read loop |
| Epoll.NothingStranded | NetCode/IO/_epoll/epoll_ET.c:65-131 | In every reachable state echoed ++ buffered = received for each client, and no client with unread bytes is forgotten |
| Epoll.Settles | NetCode/IO/_epoll/epoll_ET.c:65-131 | Without arrivals a run of either server is bounded, can go on until quiescence, and then every client got back exactly what it sent |
| Epoll.ServersAgree | NetCode/IO/_epoll/epoll_LT.c:65-105 | On the same arrivals, whatever the orders and chunk sizes, both servers have echoed the same when quiescent, namely the input |
| Epoll.ClosesIff | NetCode/IO/_epoll/epoll_LT.c:90-99 | A closed client was closed by its peer and got everything back; quiescent, the level-triggered server has closed exactly those, and either has seen exactly those ends; the edge-triggered server closes none |
| Epoll.Hangs | NetCode/IO/_epoll/epoll_ET.c:87-112 | With blocking reads a reachable state has a client with bytes waiting and a thread that can make no step, nor accept |
| Epoll.NeverHangsIff | NetCode/IO/_epoll/epoll_ET.c:87-112 | The edge-triggered server can always go on while there is work exactly when its reads do not block |
| EchoLoops.Drain | NetCode/IO/_epoll/epoll_ET.c:104-112 | All that was pending is echoed, in order, for any buffer size |
| EchoLoops.Serve | NetCode/IO/_epoll/epoll_LT.c:90-104 | One report echoes at most a bufferful, loses nothing, and closes exactly at the end of the stream |
| EchoLoops.ServeAll | NetCode/IO/_epoll/epoll_LT.c:65-105 | Repeated reports echo exactly what one drain echoes |
| EchoLoops.EchoedIff | NetCode/IO/_epoll/epoll_LT.c:91-103 | As written a chunk is echoed as it came exactly when its last byte, and no other, is NUL |
| EchoLoops.TextIsNotEchoed | NetCode/IO/_epoll/epoll_LT.c:91-103 | As written a short chunk of text gains a NUL and a full one is read beyond the buffer |
| SlotTable.FreeIsLowest | NetCode/IO/_poll/poll.c:77-83 | The first free slot is that of the lowest free descriptor |
| SlotTable.Visits | NetCode/IO/_poll/poll.c:89-111 | Both scans visit the same clients: each ready one once, ascending |
| SlotTable.TurnAgrees | NetCode/IO/_poll/poll.c:55-113 | A turn keeps table and set in step exactly when a new connection, if any, finds a free slot |
| SlotTable.TableSimulatesSet | NetCode/IO/_select/select.c:50-104 | After any run for which the table had room: slot i holds lfd + i or nothing, table and set hold exactly the clients, nfds + lfd = maxfd, and the next scans visit each ready client once |
| PollAsWritten.ShapeKept | NetCode/IO/_poll/poll.c:55-113 | With line 86 as written every turn keeps: slot i holds lfd + i or nothing, and a flag left set beyond the bound has a client with unread data |
| PollAsWritten.ReadsIff | NetCode/IO/_poll/poll.c:58-111 | As written a turn reads exactly the ready clients whose slot is within the bound behind `accept` and was written by `poll` or left set; no read waits, and none is of a free slot |
| PollAsWritten.ServesAllIff | NetCode/IO/_poll/poll.c:58-111 | As written, in every reachable state, a turn reads every ready client exactly when all of them are so placed |
| PollAsWritten.ServesAlwaysIff | NetCode/IO/_poll/poll.c:86-90 | As written, in every reachable state, every turn the kernel can deliver reads every ready client exactly when no client lies beyond the bound, nor beyond the one the next connection will set |
| PollAsWritten.Starved | NetCode/IO/_poll/poll.c:86-90 | As written, for every listening descriptor and table large enough, a run leaves a client that is not read in any continuation until another connects |
| PollAsWritten.NeverStarvesIff | NetCode/IO/_poll/poll.c:86-90 | As written every ready client is read at once in all runs exactly when the table has at most lfd + 2 slots |
| PollAsWritten.OutsideIff | NetCode/IO/_poll/poll.c:58-90 | As written a turn touches memory beyond the table exactly when the descriptor accepted last, in it or before it, is at least the number of slots |
| PollAsWritten.NeverOutsideIff | NetCode/IO/_poll/poll.c:58-90 | As written that never happens, in all runs with room in the table, exactly when lfd is 0 or the table has one slot |
| PollSelectLoops.SelectServer.OneTurn | NetCode/IO/_select/select.c:53-104 | The loop over set and maximum in place makes the turn that the simulation is about |
| PollSelectLoops.PollServer.Call | NetCode/IO/_poll/poll.c:58 | `revents` is set exactly for the open, ready slots up to `nfds`, and is clear beyond |
| PollSelectLoops.PollServer.Insert | NetCode/IO/_poll/poll.c:77-86 | Only the first free slot changes, and the bound covers it; a full table stays as it is |
| PollSelectLoops.PollServer.OneTurn | NetCode/IO/_poll/poll.c:55-113 | The loop over the array in place makes the turn that the simulation is about |
| PollSelectLoops.SideBySide | NetCode/IO/_poll/poll.c:45-113 | Both programs in place, on the same turns with room in the table, visit exactly the ready clients in the same order |

## Left out

- Atol: a minus sign reads as 0 and no value overflows, because the machine takes a length as a natural number.
- RequestRoundTrip.RoundTrip: a value does not start with a blank, because the parser skips those; a length is printed in plain decimal, and AtolReads has the other forms.
- EventLoop.OwnershipIff: for a positive number of connections, as in the source; ServedIff also needs a worker, which the pool's constructor demands.
- ServedConnections.ServedSafe: one turn of the loop in `process_read` is one step, and so is a `read`; `process_write` touches no parse.
- HttpConnections.HttpConnection.Read: the bytes that wait are fixed when the call starts; bytes that arrive during the loop are a later delivery.
- HttpConnections.Serve: every delivery is followed by a call of `process_read`; other orders are in ServedConnections.
- RequestMachineAsWritten.NeverAnswers: treats the first line only, because no call gets beyond it; line 259 in isolation is in RequestDepartures.
- PollSelectLoops.SideBySide: turns for which the table is full are excluded; what the full table does to a turn is in TurnAgrees.
- Epoll.Settles: writes always succeed, and accepting a connection is a step of its own, possible whenever the thread is outside a read.
- Integers are unbounded: 32-bit wrap-around of lengths and cursors is not modelled.
- Bytes are characters of a `string`; strings have no encoding.
- `m_method` is GET from `init` on and is not kept as a field.
- `m_host` starts as a null pointer; the source leaves it uninitialised.
- `do_requset`, `process_write`, `add_response` and `write`: unfinished in the source; the end of a parse is the verdict GET_REQUSET, and what a worker makes of it is a choice of three results.
- `close_conn` is one step: the moment between `close` and clearing `m_sockfd`, reuse of a descriptor in that moment, and the unprotected `m_user_count` are not modelled; the number of open connections stands for the count.
- Two requests on one connection: nothing in the code modelled resets the parse after a verdict.
- `m_stop`, construction and destruction of the pool: the pool is live.
- `front` and `pop_front` under the lock are one step, and so are `pthread_cond_wait`'s unlock and sleep.
- Failure of `malloc`, `fork`, `accept` and `write`, `EINTR`, and read errors other than the end of the data.
- Sleeps, printing to the terminal, and the range of the random numbers.
- What poll.c and select.c write back to a client.
- PollAsWritten.OutsideIff: what memory beyond the table holds is not modelled; it is taken as unflagged. Turns for which the table is full are excluded from the runs.
- Stale `revents` of poll.c before the first call: taken as 0.
- `locker.h` and `reterr.h`: thin wrappers around calls modelled as steps.
- `sell_tickets.c`, `dead_lock`, `producer_comsumer.c`, `server_thread.c`, and the file, pipe, FIFO, shared memory, UDP and byte-order demonstrations: races without meaning, fixed finite cases, weaker versions of the above, or plumbing.
