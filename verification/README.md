# A verified model of a multi-threaded web server

The server reads HTTP requests from non-blocking sockets, hands them to a pool of worker threads that share a pool of
database connections, answers with a file or a form, closes idle connections from a sorted timer list, and logs through
a bounded queue. This project models those parts in Dafny and proves what they promise. Verify it with
`dafny verify dfyconfig.toml`.

Code that works by changing buffers, lists and fields is a class whose methods do the same in place, each proved against
a function of the bytes or of the old state; the promises are lemmas about those functions. Threads are interleaved
steps of a state machine, and the promises hold for every run.

| file | what it models |
|---|---|
| `CStrings.dfy` | the C string functions, as called |
| `LineMachine.dfy`, `RequestHead.dfy`, `Waiting.dfy`, `HttpConn.dfy` | a resumable line parser; what the request parser computes from the bytes received; when it can still be satisfied; the class that computes it in place on one buffer |
| `WebBench.dfy`, `RoundTrip.dfy` | the request printer of webbench, and that the server reads what it prints |
| `Response.dfy`, `Sender.dfy`, `Exchange.dfy` | the response head and what a client reads from it; the two-region sender against any kernel; the whole way from a URL to the file the client reads |
| `TimerList.dfy`, `IdleTimers.dfy` | the doubly linked timer list; idle connections over whole runs |
| `Counting.dfy`, `Pools.dfy`, `PoolRuns.dfy` | main thread, workers, worker queue, database pool and one-shot re-arming as one interleaved machine; what holds in every run |
| `BlockQueue.dfy`, `LogPipeline.dfy`, `LogRotation.dfy` | the circular queue; the asynchronous log; the rotation of its files |
| `Accounts.dfy`, `Registrations.dfy` | registering, logging in and the page served; registrations by several workers at once |

## What the proofs found

Each of these is an exact condition, an outcome of its own, or a branch the model takes as the code does.

- A response is sent intact if and only if at most one return of `writev` leaves the cursor strictly inside the head
  (`Sender.IntactIff`): lines 184 and 191 of `http_conn/http_conn.cpp` compare and subtract the cumulative count with an
  `iov_len` already shortened. On every response without a second such return the iovecs are exact.
- `GetConnection` never returns null if and only if there are no more workers than connections (`PoolRuns.NeverNullIff`);
  `main.cpp` configures eight of each.
- An answer without a file, sent with two such returns, is never sent to its end: its only iovec is empty while bytes are
  owed, `writev` can only return 0, and the loop of `write` goes on for ever in the main thread (`Sender.CompletableIff`,
  `Sender.FormStalls`). With a file the response is completed, but garbled (`Sender.FileGarbled`).
- A connection whose task the full queue refuses stays open and is in no place, so no event will come for it but its timer;
  every other open connection is in exactly one (`PoolRuns.LostIff`). No run with at most k clients has a refusal if and
  only if k is at most `m_max_requests` + 1 (`PoolRuns.NeverRefusedIff`).
- The asynchronous log drops no line if and only if it has one producer (`LogPipeline.NothingRejectedIff`): another
  producer may fill the queue between `full()` and `push`, whose answer is not looked at.
- `Content-Length` of a file is right if and only if its size is below 2^31, and `bytes_to_send` if and only if head and
  file together are (`Response.FileFramed`).
- `Content-Length` of a request is never read from NUL-free bytes, since 15 bytes are compared with a name of 14; so
  `CHECK_STATE_CONTENT` is not entered without a NUL (with one it is: `RequestHead.BodyReached`), `m_string` keeps pointing at "user=123&passwd=123", and an account page is asked
  for with the name "123" and the password "3" (`RequestHead.LengthIsIgnored`, `RequestHead.NoBodyWithoutNul`, `Accounts.DefaultContent`). In the model
  entering that state is the outcome `Body`.
- When an `http://` target has no slash after the authority, `strchr` at line 465 returns null and line 468 passes it
  on; the model has the outcome `NullTarget` for it rather than a precondition (`RequestHead.NullTargetIff`).
- A request line with a blank in its target is a bad request. A bad line end (a CR or LF on its own) is not refused: a
  parser that asks for more can get no outcome from the bytes that still fit if and only if it stands at one or has less
  room left than it needs (`Waiting.HopelessIff`). It goes on asking until the client stops, or the buffer is full and
  `read_once` refuses, upon which the connection is closed. The LINE_OK exit of the LF branch is never taken.
- Only tabs are skipped after a header name, so "Connection: keep-alive" with a space does not keep the connection alive
  (`RequestHead.SpaceBeforeKeepAlive`).
- A malformed request is answered with 404; the texts for 400 are not used.
- A registration whose insert query fails is answered with the error page, but the pair stays in `users` and logs in:
  `users` and the table agree on a name exactly if its first registration got its query through (`Accounts.TableAgreesIff`).
- A name is looked up outside the lock: two workers may both find it free and send both clients to the log-in page, and one
  of them cannot log in. That happens in no run if and only if one worker registers (`Registrations.HonestIff`).
- The log compares days of the month only: a line may go to the file of an earlier month (`LogRotation.OwnDateIff`).
- `tick` leaves `tail` dangling when it empties the list; no operation then reads it before it is set again.
- `threadpool.h` and `web_server.cpp` call opposite values of the actor model by the same names; the branches modelled are
  those of `main.cpp`, with the value 0.

## Model

| member | source | states |
|---|---|---|
| LineMachine.ScanLineGrows | http_conn/http_conn.cpp:736-777 | a line end once found, good or bad, is found at the same place however many bytes arrive later |
| LineMachine.ScanLineResumes | http_conn/http_conn.cpp:736-777 | a scan that ran out of bytes and goes on from `m_checked_idx` finds what a scan from the start of the line finds |
| LineMachine.RunGrows | http_conn/http_conn.cpp:272-333 | later bytes never change a result already reached; without a result, going on from the saved cursors equals starting over on the longer stream |
| LineMachine.ChunkIndependence | http_conn/http_conn.cpp:272-333 | for every handler of lines, every stream and every way to split it, a run after each piece gives the first result, the parsed state and the cursors of one run over everything |
| LineMachine.BadLineForever | http_conn/http_conn.cpp:765-772 | for every handler of lines: once `parse_line` returns LINE_BAD it does so forever, and the parser asks for more and stays where it is |
| LineMachine.RunOfLines | http_conn/http_conn.cpp:281-331 | reading a text printed as lines is handling those lines one after another |
| RequestHead.ReadInPieces | http_conn/http_conn.cpp:272-333 | chunk independence of the request parser: outcome, `m_url`, `m_host`, `m_linger`, state and cursors, for all streams up to the end of the head |
| RequestHead.NulFreeLength | http_conn/http_conn.cpp:511-515 | the comparison of 15 bytes with the 14 letters of "Content-Length" accepts, on NUL-free lines, only a line that records the value 0 |
| RequestHead.NoBodyWithoutNul | http_conn/http_conn.cpp:491-527 | over every run on NUL-free bytes `m_content_length` stays 0 and the CONTENT state is never entered |
| RequestHead.LengthIff | http_conn/http_conn.cpp:511-515 | with no length recorded yet, a line records one if and only if its bytes up to the first NUL are the bare name and digits worth more than 0 stand behind it |
| RequestHead.BodyIff | http_conn/http_conn.cpp:493-500 | a line makes the server wait for a body if and only if it is empty, or begins with a NUL, after a length |
| RequestHead.BodyReached | http_conn/http_conn.cpp:491-527 | the input: a request with a NUL in it that enters the CONTENT state with length 5 |
| RequestHead.TargetHasSlash | http_conn/http_conn.cpp:475-488 | over every run an accepted target begins with a slash, which `do_request` relies on |
| RequestHead.GetRequestInHeader | http_conn/http_conn.cpp:300-314 | `do_request` is called in the state of the header lines |
| Waiting.StuckIff | http_conn/http_conn.cpp:281-333 | a request parser that asks for more bytes gets no outcome from anything that fits in n bytes if and only if it stands at a bad line end or fewer bytes are left than it needs, which `Need` gives as 1 to 4 from the line so far |
| Waiting.HopelessIff | http_conn/http_conn.cpp:124-333 | the same for everything a connection may have sent from the start and the 2048 bytes of the read buffer, with no assumption on the state reached |
| Waiting.LongLine | http_conn/http_conn.cpp:124-125 | the input: 2047 bytes without a line end are good so far, and nothing that still fits brings an outcome |
| RequestHead.AcceptedLines | http_conn/http_conn.cpp:414-488 | a request line is accepted, with a given method and target, if and only if it consists of the word GET, or POST, in any case, one blank and then tabs, a target, one blank and then tabs, and HTTP/1.1 |
| RequestHead.ShapedIsParsed | http_conn/http_conn.cpp:414-488 | every line of that shape is taken apart into exactly its parts |
| RequestHead.ParsedIsShaped | http_conn/http_conn.cpp:414-488 | every line not refused has that shape |
| RequestHead.NullTargetIff | http_conn/http_conn.cpp:464-475 | the null pointer of `strchr` is passed on if and only if the target begins with http:// and has no slash behind it |
| RequestHead.FirstLineOutcome | http_conn/http_conn.cpp:414-488 | the outcome of every first line: the null pointer exactly for lines of that shape with such a target, a bad request exactly for the other lines that are not accepted |
| RequestHead.HostValue | http_conn/http_conn.cpp:518-522 | for the field name in any case: the host is what stands behind the name and any tabs |
| RequestHead.ConnectionField | http_conn/http_conn.cpp:502-510 | for the field name in any case and any value: linger is set exactly when the value, after its tabs, is keep-alive in any case |
| RequestHead.SpaceBeforeKeepAlive | http_conn/http_conn.cpp:502-510 | a space in front of keep-alive, which RFC 7230 allows, hides it |
| RequestHead.LengthIsIgnored | http_conn/http_conn.cpp:511-515 | no line that begins with "Content-Length:", in any case and with any value, is read |
| CStrings.LowerIff | http_conn/http_conn.cpp:431-436 | two characters compare equal in `strcasecmp` if and only if they are the same or a capital and its small letter |
| HttpConn.HttpConn.constructor | http_conn/http_conn.cpp:244-269 | the initial state of the reading half |
| HttpConn.HttpConn.Init | http_conn/http_conn.cpp:244-269 | from any state of the reading half, after a body too: it is as at the start, the read buffer included |
| HttpConn.HttpConn.ReadOnce | http_conn/http_conn.cpp:124-154 | the pieces the kernel delivers are appended in order, without touching earlier bytes or the parsed state; an edge-triggered read takes them until `recv` has something else to say, and returns true if and only if that is EAGAIN |
| HttpConn.HttpConn.ParseLine | http_conn/http_conn.cpp:736-777 | the in-place loop computes the scan of the bytes received, writes exactly the two NULs over CR LF, and never leaves by the LINE_OK of its LF branch |
| HttpConn.HttpConn.AppendIndexPage | http_conn/http_conn.cpp:480 | `strcat(m_url, "judge.html")` writes eleven bytes behind the "/" and nothing else |
| HttpConn.HttpConn.ParseRequestLine | http_conn/http_conn.cpp:414-488 | the in-place code finds method and target as the line says, and everything it writes lies inside the line that was cut |
| HttpConn.HttpConn.ParseHeaders | http_conn/http_conn.cpp:491-527 | the in-place code updates linger, content length and host as the line says, also where the 15 bytes skipped run past a NUL |
| HttpConn.HttpConn.NextLine | http_conn/http_conn.cpp:272-287 | a line is cut off and the strings parsed before are kept |
| HttpConn.HttpConn.TakeLine | http_conn/http_conn.cpp:281-326 | one turn of the loop is one move of the line machine on the bytes received |
| HttpConn.HttpConn.ProcessRead | http_conn/http_conn.cpp:272-315 | the call up to the end of the head, resumed in any state, computes `RequestHead.Read` of the bytes received; all its writes lie below `m_checked_idx`; it terminates by `m_read_idx - m_checked_idx` |
| HttpConn.HttpConn.ParseContent | http_conn/http_conn.cpp:530-541 | for every length, negative and wrapped ones too: when the body is accepted, what `m_string` then designates, the one byte written, and when that byte would lie outside the buffer |
| HttpConn.HttpConn.ReadRequest | http_conn/http_conn.cpp:103-154 | any chunks that fit the buffer, each followed by `process_read`, leave the state and outcome of one run over all the bytes |
| WebBench.WebBench.SplitUrl | webbench-1.5/webbench.c:229-258 | host, port and path found by offset arithmetic are those of the URL |
| WebBench.WebBench.BuildRequest | webbench-1.5/webbench.c:199-291 | which URLs are refused; the protocol level after its corrections; the printed text, line by line; host and port |
| RoundTrip.GetLine | http_conn/http_conn.cpp:414-464 | a printed GET line reads back as its target exactly when the target has no blank |
| RoundTrip.PostLine | http_conn/http_conn.cpp:414-488 | a POST line reads back as its target exactly when the target has no blank, and for a path as that path with the method POST |
| RoundTrip.OriginForm | http_conn/http_conn.cpp:465-488 | a path means itself, and "/" means "/judge.html" |
| RoundTrip.AbsoluteForm | http_conn/http_conn.cpp:464-488 | an absolute http or https URL means its path |
| RoundTrip.DirectRoundTrip | webbench-1.5/webbench.c:229-291 | the direct request of every accepted URL reads back as its path and host when the path has no blank, and is a bad request when it has one |
| RoundTrip.DirectInPieces | http_conn/http_conn.cpp:272-333 | in any chunking the direct request reaches `do_request` if and only if its path has no blank, and then with `m_url` equal to the path |
| RoundTrip.ProxyRoundTrip | webbench-1.5/webbench.c:260-291 | the request sent to a proxy, in absolute form, reads back as the path of its URL |
| RoundTrip.SamePage | http_conn/http_conn.cpp:464-488 | however both are cut into pieces, the direct and the proxy request for one URL reach `do_request` with the same `m_url` |
| RoundTrip.RequestFits | webbench-1.5/webbench.c:199-291 | every printed request fits the request buffer and so the read buffer of the server |
| RoundTrip.OnlyGet11 | webbench-1.5/webbench.c:199-291 | of what webbench prints for a URL without blanks in its path, in any verb and protocol level, the server accepts the request line if and only if it is GET and HTTP/1.1 |
| RoundTrip.OlderRequests | webbench-1.5/webbench.c:269-289 | the lines of the requests for HTTP/0.9 and HTTP/1.0 |
| RoundTrip.VerbWords | webbench-1.5/webbench.c:212-219 | the words of the four verbs |
| RoundTrip.AcceptedDirectIff | webbench-1.5/webbench.c:223-245 | without a proxy a URL is accepted if and only if it begins with http:// in any case, has a slash behind that and at most 1500 characters |
| RoundTrip.AcceptedProxyIff | webbench-1.5/webbench.c:223-245 | with one, if and only if there is a slash behind its first "://" and it has at most 1500 characters |
| WebBench.LevelIsLeast | webbench-1.5/webbench.c:207-210 | the protocol level is corrected to the least that the verb and a reload can be asked for in |
| Exchange.PortRead | webbench-1.5/webbench.c:253-257 | the port printed in decimal is read back; none, or 0, is 80 |
| Response.AtolIntText | http_conn/http_conn.cpp:833-835 | atol reads back every int that %d prints |
| Response.AtolText | http_conn/http_conn.cpp:511-515 | atol reads back every integer printed in decimal, cut off at the ends of long |
| Response.FormStatus | http_conn/http_conn.cpp:348-373 | which codes are answered with a form, and the status, reason and text of each |
| Response.HeadDecodes | http_conn/http_conn.cpp:819-845 | from head and any body a client finds the first empty line and reads back status, length and linger flag |
| Response.FormFramed | http_conn/http_conn.cpp:348-373 | every error answer announces exactly the bytes that follow its head |
| Response.FileFramed | http_conn/http_conn.cpp:374-395 | a file is framed if and only if its size is below 2^31, and `bytes_to_send` is right if and only if head and file together are |
| Response.Writer.AddResponse | http_conn/http_conn.cpp:791-810 | all or nothing, and never past the end of the buffer |
| Response.Writer.ProcessWrite | http_conn/http_conn.cpp:348-408 | for each code: whether it answers, the text in the buffer, the iovecs and `bytes_to_send` |
| Sender.Faithful | http_conn/http_conn.cpp:157-211 | with at most one return strictly inside the head, the bytes sent are always a prefix of head and file, and the iovecs describe exactly the unsent rest |
| Sender.SecondInside | http_conn/http_conn.cpp:184-193 | a second return inside the head leaves the iovecs without the rest of the head |
| Sender.NeverRecovers | http_conn/http_conn.cpp:157-211 | from then on no sequence of returns repairs the response |
| Sender.IntactIff | http_conn/http_conn.cpp:157-211 | a response sent to the end is intact if and only if at most one return left the cursor strictly inside the head; `CompletableIff` says which can be sent to the end |
| Sender.Progress | http_conn/http_conn.cpp:180-181 | `bytes_to_send` falls by what the kernel takes, so positive returns are at most as many as there are bytes |
| Sender.CompletableIff | http_conn/http_conn.cpp:157-211 | at any time `write` can still come to its end if and only if there is a file or at most one return has left the cursor strictly inside the head; an answer in one iovec with two such returns never ends |
| Sender.Spins | http_conn/http_conn.cpp:168-210 | there, once the iovec is empty, `writev` can only return 0 and changes nothing, so the loop has no end |
| Sender.FormStalls | http_conn/http_conn.cpp:189-193 | the input: a head of 100 bytes without a file and returns of 40 and 30 leave 30 bytes owed and none described |
| Sender.FileGarbled | http_conn/http_conn.cpp:184-193 | the input: a head of 10 bytes, a file of 20 and returns of 4, 3 and 23 complete a response that is not intact |
| Sender.WireText | http_conn/http_conn.cpp:157-211 | on that domain the client has read a prefix of head ++ file, and all of it on completion |
| Sender.Sender.Write | http_conn/http_conn.cpp:157-211 | one call of `write`, re-entered after EAGAIN any number of times: it takes the sizes returned up to the first EAGAIN, error or the last byte; it re-arms exactly on EAGAIN and breaks off exactly on an error; what it returns, what is then on the wire, and whether the response can still be completed |
| Sender.Sender.Account | http_conn/http_conn.cpp:180-193 | the corrections of the iovecs after one return |
| Exchange.FileArrives | http_conn/http_conn.cpp:157-408 | head building, sending and reading together: on the domain of the two conditions the client reads 200, the length of the file, the linger flag and then exactly the file |
| Exchange.Respond | http_conn/http_conn.cpp:103-120 | on the objects: from a head read to the response in the write buffer and its iovecs, by `do_request` and `process_write` |
| Exchange.Serve | http_conn/http_conn.cpp:103-154 | on the objects: any pieces of any request that fit, read and answered; when there is a response, for which file and with which head |
| Exchange.PageArrives | http_conn/http_conn.cpp:103-727 | from one end to the other: the printed request for a URL without blanks in its path, in any pieces, makes the client read 200, the right length and exactly the file `do_request` names for that URL, given the room its arrays need |
| Exchange.OrdinaryFile | http_conn/http_conn.cpp:703-709 | that file is doc_root and the path, as far as 199 bytes go, when no command follows its last slash |
| Exchange.CommandFile | http_conn/http_conn.cpp:659-700 | the page of each of the five commands |
| TimerList.InsertSorted | timer/lst_timer.cpp:21-40 | insertion keeps the order |
| TimerList.InsertAdds | timer/lst_timer.cpp:21-40 | insertion adds one entry and moves no other past another |
| TimerList.InsertUnique | timer/lst_timer.cpp:140-164 | the place is the only one that keeps the order, behind all timers that expire no later |
| TimerList.SortTimerList.AddTimer | timer/lst_timer.cpp:21-40 | on the linked nodes: stable sorted insertion |
| TimerList.SortTimerList.AddBehind | timer/lst_timer.cpp:140-164 | the private overload, with the traversal |
| TimerList.SortTimerList.AdjustTimer | timer/lst_timer.cpp:43-67 | in all branches: the node is taken out and put in again at its new place |
| TimerList.SortTimerList.DelTimer | timer/lst_timer.cpp:70-101 | exactly this node goes, in all four cases |
| TimerList.SortTimerList.Tick | timer/lst_timer.cpp:112-136 | the timers with `expire` <= now are called back, once each and in order, and dropped; the links of the rest agree, `tail` being meaningful only when the list is not empty |
| IdleTimers.AcceptKeeps | web_server.cpp:225-239 | a new connection goes to the end of the list |
| IdleTimers.ActiveKeeps | web_server.cpp:243-249 | an active connection moves to the end, the others keep their order |
| IdleTimers.CloseKeeps | web_server.cpp:252-260 | a closed connection loses its only timer |
| IdleTimers.TickKeeps | timer/lst_timer.cpp:243-246 | a tick closes exactly the connections idle for three slots or more |
| IdleTimers.RunKeeps | web_server.cpp:165-221 | over every run the list is in the order of last activity, has one timer for each open connection and nothing overdue |
| IdleTimers.IdleBound | web_server.cpp:165-221 | in every run with ticks at most TIMESLOT apart no connection is closed by a tick before 3*TIMESLOT of idleness and none stays open for 4*TIMESLOT |
| IdleTimers.WebServer.Timer | web_server.cpp:225-239 | the heap list and `users_timer` follow the abstract step |
| IdleTimers.WebServer.AdjustTimer | web_server.cpp:243-249 | the same for an activity: the new time never moves a timer forward, which `adjust_timer` relies on |
| IdleTimers.WebServer.DealTimer | web_server.cpp:252-260 | the same for a close |
| IdleTimers.WebServer.TimerHandler | timer/lst_timer.cpp:243-246 | the same for a tick, with the connections called back in order |
| Pools.NextKeeps | threadpool/threadpool.h:156-203 | every step of the main thread or a worker keeps the three invariants: tasks backed by the semaphore, connections counted, one place for each client |
| Pools.WorkerKeepsQueue | threadpool/threadpool.h:156-176 | a worker step keeps queue length = semaphore + appender before its post + woken workers |
| Pools.WorkerKeepsPool | mysql/sql_connection_pool.cpp:58-96 | a worker step keeps the counters, the place of every database connection, and list length = semaphore + permits out + posts owed |
| Pools.MainMoves | web_server.cpp:345-439 | a step of the main thread moves a client connection from one place to another, closes or refuses it, and never doubles or loses it |
| Pools.WorkerMoves | http_conn/http_conn.cpp:103-120 | so does a step of a worker, which at the end of `process` closes the connection or arms it again |
| Pools.RunKeeps | threadpool/threadpool.h:102-203 | the invariants hold over every interleaving |
| PoolRuns.QueueTheorem | threadpool/threadpool.h:121-176 | in every reachable state a woken worker finds a task, so the `continue` is never taken; tasks taken ++ tasks queued = tasks accepted, in order; the length never exceeds `m_max_requests` + 1 |
| PoolRuns.TakenByOwner | threadpool/threadpool.h:170-176 | the connection a worker has is one that this worker took from the queue |
| PoolRuns.FrontTheorem | mysql/sql_connection_pool.cpp:58-78 | `front()` never meets an empty list, despite the unlocked test and with any number of workers; `m_FreeConn` + `m_CurConn` = `m_MaxConn`; connections are handed out in the order they were made or given back |
| PoolRuns.OnePlaceTheorem | mysql/sql_connection_pool.cpp:58-96 | each database connection is in the list or with exactly one worker |
| PoolRuns.CompositionTheorem | mysql/sql_connection_pool.cpp:128-139 | with no more workers than connections `GetConnection` neither returns null nor blocks |
| PoolRuns.NullReached | mysql/sql_connection_pool.cpp:62 | with more workers than connections a run exists in which it returns null |
| PoolRuns.NeverNullIff | main.cpp:20-22 | `GetConnection` never returns null if and only if there are no more workers than connections, as configured |
| PoolRuns.OwnershipTheorem | http_conn/http_conn.cpp:53-63 | no two threads ever work on the buffers of one connection, and one a worker has is neither armed, nor queued, nor in the current batch of events |
| PoolRuns.LostIff | threadpool/threadpool.h:121-141 | an open connection is in exactly one place - armed, with the main thread, queued or with a worker - or, if and only if the full queue has refused its task, in none |
| PoolRuns.RefusalReached | threadpool/threadpool.h:128-131 | a run in which the task of a client is refused; its connection stays open and in no place |
| PoolRuns.NeverRefusedIff | threadpool/threadpool.h:121-141 | no run with at most k clients has a task refused if and only if k <= `m_max_requests` + 1 |
| PoolRuns.OpenIff | web_server.cpp:189-193 | a connection is open after a step if and only if it is the one accepted, or was open and the step is not one of the seven that close it |
| PoolRuns.ClosedForGood | http_conn/http_conn.cpp:92-120 | in every run, a connection closed - by a hang-up, a failed read or write, the end of a response that is not kept, a worker or its timer - is neither open nor in epoll ever after |
| PoolRuns.NoDeadlock | threadpool/threadpool.h:156-203 | also with more workers than connections: no worker can make a step if and only if all wait for a task and none has been posted; then none is queued, but for one about to be posted |
| PoolRuns.WorkersFinish | threadpool/threadpool.h:156-203 | from every reachable state the workers alone make at most 8 steps each and 9 for each task posted, and when none can make another, all tasks posted are done |
| BlockQueue.BlockQueue.Push | blockqueue.h:126-147 | appends unless full; `m_back` wraps |
| BlockQueue.BlockQueue.Pop | blockqueue.h:149-167 | takes the oldest element; what was popped is a prefix of what was pushed since the last clear |
| BlockQueue.BlockQueue.Back | blockqueue.h:86-100 | the youngest element |
| BlockQueue.BlockQueue.Clear | blockqueue.h:31-39 | empties the queue and restarts the indices at -1 |
| BlockQueue.BlockQueue.Full | blockqueue.h:41-54 | whether the contents fill the capacity |
| BlockQueue.BlockQueue.BackIsCongruent | blockqueue.h:138-163 | `m_back` is congruent to `m_front` + `m_size` modulo the capacity, from the -1 start on |
| LogPipeline.NextCopies | log/log.cpp:135-160 | every step keeps the number of copies of every line |
| LogPipeline.Conservation | log/log.h:40-48 | in every interleaving: lines produced = in the file + queued + in the hand of the consumer + rejected + with their producers, as multisets; queued lines reach the file in push order |
| LogPipeline.SynchronousDirect | log/log.cpp:152-160 | a log that is not asynchronous never uses the queue: every line is in the file or still with its producer |
| LogPipeline.OneProducer | log/log.cpp:154-156 | one producer never has a line rejected |
| LogPipeline.TwoProducers | log/log.cpp:154-156 | for two or more and any capacity, a run in which a line is dropped |
| LogPipeline.NothingRejectedIff | log/log.cpp:154-156 | the asynchronous log never drops a line if and only if it has one producer |
| LogRotation.NextCount | log/log.cpp:99-103 | the arithmetic of counting on across a multiple of `m_split_lines` |
| LogRotation.RunKeeps | log/log.cpp:99-127 | over every sequence of days the open file is the one its count and day of the month ask for |
| LogRotation.Rotation | log/log.cpp:99-159 | the line given count c goes to the file with suffix c / `m_split_lines`; no opening of a file gets more than `m_split_lines` lines; a file followed by a numbered one is full, but for the first, which is one line short |
| LogRotation.NoFileTwice | log/log.cpp:99-127 | as long as no day is earlier than the one before, no file name is opened twice, so no file gets more than `m_split_lines` lines in the run |
| LogRotation.OwnDateIff | log/log.cpp:99-127 | while days in a row differ in the day of the month, every line goes to a file of its own date; the next does if and only if its date is that of the last, or differs in the day of the month, or its count opens a file anyway |
| LogRotation.MonthLater | log/log.cpp:103 | the input: a line of 5 February goes to the file of 5 January |
| LogRotation.Log.WriteLog | log/log.cpp:71-162 | the code follows that step |
| Registrations.Serial | http_conn/http_conn.cpp:625-640 | in every interleaving of any number of workers, `users` is what the same registrations leave one after another in the order of their lock sections, and a login succeeds accordingly |
| Registrations.OnlyAsked | http_conn/http_conn.cpp:598-640 | every pair inserted was asked for in the run |
| Registrations.TableAgreesIff | http_conn/http_conn.cpp:625-640 | in every interleaving, `users` and the table agree on a name if and only if it was there at the start, or the first password inserted for it is the last one a successful query stored, or there is neither |
| Registrations.TwoClerks | http_conn/http_conn.cpp:625 | with two workers, a run in which both find a name free and both are sent to the log-in page, and one of them cannot log in |
| Registrations.HonestIff | http_conn/http_conn.cpp:625-640 | everybody sent to the log-in page can log in, in every interleaving, if and only if registrations are made by one worker |
| Accounts.Extract | http_conn/http_conn.cpp:600-611 | the two loops copy the name up to the first "&" and the password ten bytes behind it |
| Accounts.FormIsExtracted | http_conn/http_conn.cpp:598-611 | name and password of every form are recovered |
| Accounts.DefaultContent | http_conn/http_conn.cpp:244-269 | what a request without a parsed body logs in with: name "123" and password "3" |
| Accounts.LoginIff | http_conn/http_conn.cpp:616-655 | after any registrations a login succeeds exactly with the password loaded at the start or, for other names, the first one registered |
| Accounts.TableAgreesIff | http_conn/http_conn.cpp:627-640 | for registrations one after another: `users` and the table agree on a name if and only if it was there at the start or the first registration of it, if any, got its query through |
| Accounts.WelcomeIff | http_conn/http_conn.cpp:586-709 | after any visits to both account pages the welcome page is served exactly for that pair |
| Accounts.RegisterIff | http_conn/http_conn.cpp:616-645 | after any visits a registration is answered with the log-in page if and only if the name was not there at the start, nobody has registered it and the query succeeds, and otherwise with the error page |
| Accounts.LoginAnswer | http_conn/http_conn.cpp:649-655 | the two answers to a login |
| Accounts.StillNoPage | http_conn/http_conn.cpp:659-697 | the byte `p` points at, after `m_url` is overwritten below it, never selects one of the fixed pages |
| Accounts.Server.Account | http_conn/http_conn.cpp:590-656 | users and page after a registration or a login, in the overwritten buffer |
| Accounts.Server.DoRequest | http_conn/http_conn.cpp:579-727 | `m_real_file` becomes doc_root plus the page chosen, cut off at 199 bytes |

## Left out

- Sockets, epoll, `recv`, `writev`, `mmap`, `stat`, signals and clocks are inputs: chunks, return values, event choices and times. Bytes are Dafny characters, of which the 256 byte values are a part.
- MySQL and the SQL text: a connection is an identity and a query a Boolean that is given. The table read at the start is the initial `users` map.
- `lock/lock.h`: mutexes, semaphores and condition variables are assumed to do what they are for. `m_stop`, destructors and `DestroyPool` are not modelled: the invariants are for a running server.
- HttpConn.HttpConn.ProcessRead: up to the end of the head; the CONTENT branch of its loop is `ParseContent`, called once.
- HttpConn.HttpConn.ParseContent: a body that starts where the head ended; where its NUL would lie outside the buffer the outcome is `OutsideBuffer`, and nothing is said of what follows. When `process_read` is called again with a part of the body there, `parse_line` has moved `m_checked_idx` through it, and what is then measured is not modelled.
- HttpConn.HttpConn.ReadOnce: in level-triggered mode the source adds a negative return of `recv` to `m_read_idx` before it reports failure; the connection is then closed and the model leaves the cursor.
- HttpConn.HttpConn.constructor: the reading half of the state; the write buffer, the file name and the counters of the sender start in the classes that use them.
- HttpConn.HttpConn.Init: the same.
- RequestHead.ReadInPieces: up to the end of the head; a result ends the reading, as the connection is then answered or closed.
- PoolRuns.OwnershipTheorem: a connection keeps an identity of its own and is not accepted again, so a descriptor number that is reused after a close in a worker is outside; the busy-wait flags of actor model 1 are not modelled; accepting is one step, between batches or between their events.
- `threadpool.h` and `sql_connection_pool.cpp` are steps on values, as their point is the interleaving, and not classes.
- PoolRuns.LostIff: that a connection is armed, not for which of EPOLLIN and EPOLLOUT.
- Pools.NextKeeps: the unlocked `connList.empty()` is an atomic read.
- IdleTimers.IdleBound: ticks at most TIMESLOT apart are assumed, as is a clock that does not run backwards; a close in a worker, which leaves the timer in the list, is outside.
- BlockQueue.BlockQueue.Pop: the blocking form; a pop on an empty queue returns None where the source waits. `front` and the timed `pop` are not modelled.
- LogPipeline.Conservation: lines are numbers; their text, levels and dates are not modelled, and the file is one for the whole run.
- LogRotation.Log.WriteLog: the synchronous path; lines are counted without their text.
- LogRotation.Rotation: one thread, written directly, `m_split_lines` at least 1; file names only as date and number, and lines a file held before the run are not counted.
- WebBench.WebBench.BuildRequest: that host and port fit their arrays of 64 and 10 bytes, as the source takes for granted, is a precondition; messages and exits are the result false; option parsing, forking and the rest of webbench are not modelled.
- Accounts.TableAgreesIff: registrations one after another; the interleaved form is in `Registrations`.
- Registrations.Serial: the look-up outside the lock is an atomic read, and the query of a lock section an answer that is given.
- Exchange.Respond: for a request without a body; `disk` has the files `stat` finds and the process may read.
- Accounts.Server.Account: that name, password and answer fit their arrays, as the source takes for granted, is a precondition; the array for the insert statement is left out with its text.
- Accounts.Server.DoRequest: up to the name of the file, with the same preconditions on the account pages and the array of 200 bytes for the URL there; doc_root leaves room for the fixed pages. `stat`, permissions and `mmap` afterwards are not modelled.
- Response.Writer.ProcessWrite: an empty file and NO_RESOURCE return false; the bytes a refused `vsnprintf` leaves behind `m_write_idx` are not described. HTML pages are not modelled.
- `Connection`, `Host` and unknown header lines only as far as `parse_headers` looks at them; RFC 7230 allows more.
