# Verified model of muduo_se

muduo_se is a C++ network library in the reactor style: an event loop over epoll, a timer queue, buffered TCP
connections, an HTTP server on top of them, and an asynchronous logger. This project models its stateful core and
proves what the parts promise, over every input and every run.

Each part has two layers. A value layer gives the behaviour as functions: one step of a state machine, one parse, one
read of a connection. The theorems are about that layer: invariants of every step, statements over whole runs,
independent reference definitions (a grammar for the parser, a sequential parse of the whole stream for the server, a
plain byte sequence for the buffer). A class layer has the fields, loops and in-place updates of the program, and each
of its methods is proved to take exactly one step of the value layer.

| file | what it models |
|---|---|
| `Buffer.dfy` | the growable byte buffer with two cursors (`base/buffer.{h,cc}`) |
| `HttpRequest.dfy`, `HttpParser.dfy` | the request, its two line patterns, and the resumable parser (`net/HttpRequest.h`, `net/HttpContext.{h,cc}`) |
| `HttpGrammar.dfy` | what the parser accepts, and how it behaves on cut input |
| `HttpServer.dfy` | read, parse, dispatch, reset, over whole connections (`net/HttpServer.cc`) |
| `HttpRuns.dfy` | the same from the socket on: what the reads deliver, what the parser gets, which requests wait |
| `HttpResponse.dfy` | the response printer and its round trip through the header parser (`net/HttpResponse.cc`) |
| `HttpNumbers.dfy` | the numbers and the status line of a printed response, read back by a reader of their own |
| `TcpOutput.dfy` | the send path (`net/TcpConnect.cc`) |
| `HttpAnswers.dfy` | both together: from the bytes received to the answers on the wire (`net/HttpServer.cc`) |
| `Timers.dfy`, `TimerRuns.dfy`, `TimerHandles.dfy`, `TimerQueue.dfy` | the timer queue: steps, runs, what a returned handle can do, and the queue's own containers (`net/TimerQueue.{h,cc}`) |
| `LogRing.dfy`, `LogRuns.dfy`, `LogExamples.dfy`, `Rlog.dfy` | the ring logger: steps, runs, runs that go wrong, and the linked ring (`base/rlog.{h,cc}`, the cell buffers of `base/buffer.{h,cc}`) |
| `Histories.dfy` | facts that hold since something last made them hold |
| `BlockQueue.dfy` | the two blocking queues as monitors (`base/blockqueue.h`) |
| `EventLoop.dfy` | handing functors to the loop thread, and the wakeup (`net/EventLoop.cc`) |
| `Epoll.dfy` | the poller's table against the kernel's interest set (`net/EpollPoller.cc`, `net/Channel.h`) |

Times of the timer queue are integers in nanoseconds and intervals in microseconds, as `std::chrono` and `MS` have
them; the logger's clock is in seconds.

## Where the code does less than it promises

In these places the expected law is false of the code. The code is modelled as it is, and the lemma says exactly when
the law holds.

- *Independence of the cuts.* A POST takes all the bytes that happen to be in the buffer as its body, whatever its
  Content-Length says. So the dispatched requests are a prefix of the parse of the whole stream if and only if no byte
  arrives after a dispatched POST (`HttpServing.DispatchedIsPrefix`; `CutPostExample` is such a run).
- *Reset.* `HttpRequest::swap` leaves the body out, so a reset context keeps the last POST's body and the next
  request that is no POST is dispatched with it. Every message is dispatched with the body it was sent with if and only
  if none that is no POST was sent right behind a POST with a body (`HttpServing.SentExactly`; over the dispatched
  requests of any run `BodiesExactly`; `LeftBodyExample`).
- *Versions.* `kUnknown` and `kHttp10` have the same value, so every text but "1.1" passes for HTTP/1.0. The version
  names the text if and only if that is "1.0" or "1.1" (`HttpRequests.VersionExactly`).
- *One request a read.* `onMessage` dispatches at most one request, so a pipelined one can wait in the buffer for
  another read. None waits at the end of a run if and only if no stretch of reads at its end has brought more requests
  than it had reads (`HttpRuns.NoneWaitsExactly`).
- *The spill path and failed reads of `Buffer::read`.* It appends as many bytes of the spill area as were read in all,
  instead of as many as were spilled, and a failed read takes a byte away. What is parsed is what was received if and
  only if no read failed and every read fitted the free part of the buffer or found none (`HttpRuns.FaithfulExactly`).
- *The printer.* Content-Length is printed into 32 bytes. The printed headers read back if and only if keys and
  values are free of the characters that end them and the length line fits (`HttpResponses.RoundTripExactly`).
- *A failed `write` of the output buffer.* It moves the read cursor back by one. Output is conserved if and only if no
  such write failed (`TcpOutput.ConservedExactly`).
- *Write interest and shutting down.* Disabling all events, at the end of the file, leaves queued bytes behind. They
  stay there until something is sent, or until a write callback that was reported together with the end of the file,
  and comes with write interest already off, gets the last of them out. Write interest is on exactly while bytes are
  queued, if and only if no disabling has left bytes behind in this sense (`TcpOutput.InterestExactly`,
  `LateWriteExample`). A shutdown, which shuts down the read side, is decided once and for all when it is first asked
  for: asked for while bytes wait, it is lost (`TcpOutput.ShutdownDecidedAtOnce`, `ShutdownLostExample`).
- *The handle of a timer.* It is made from the shared counter, not from the node's own number. Cancelling a pending
  timer by it works if and only if no other timer was constructed in between; otherwise a repeating timer goes on for
  ever (`TimerHandles.HandleStopsExactly`, `WrongHandleNeverStops`).
- *Cancelling early.* A cancel that reaches the loop before the timer's own add is forgotten if no batch is running,
  and the timer goes on; during a batch it is remembered for good, and the timer, even a repeating one, runs at most
  once (`TimerRuns.EarlyCancelExactly`).
- *The timer descriptor.* `handleRead` does not read it. It is readable if and only if it has expired and was not set
  since, so a queue left empty by its last batch makes every poll return at once until a timer is added
  (`TimerHandles.ReadableExactly`, `SpinsUntilAdd`).
- *The log.* The consumer clears a buffer before it takes the lock and moves on after it; and it streams a buffer as a
  C string, though clearing leaves the old bytes in place. The log is in order if and only if no producer links in a
  buffer between clear and advance and every buffer written has no NUL among its bytes and one right behind them
  (`LogRuns.OrderedExactly`). With lines free of NULs that means: every buffer written is below its capacity, filled
  as far as it has ever been, and had a NUL there from the start (`LogRuns.OrderedByMark`). An idle logger breaks
  this: its one line is written again with every third timeout, for ever (`LogExamples.IdleRepeats`).
- *The bounded queue.* It can deadlock if and only if its capacity is zero (`BoundedQueues.DeadlockExactly`).

## Model

| member | source | states |
|---|---|---|
| `Bytes.FindCrlf` | muduo_se/base/buffer.h:61-64 | finds the first CR LF at or after a place, and says none only when there is none |
| `Bytes.FindCrlfExtend` | muduo_se/base/buffer.h:61-64 | bytes that arrive later never move a line end already found |
| `Bytes.FindCrlfAfterLine` | muduo_se/base/buffer.h:61-64 | a line without a line end inside, printed with its terminator, is cut off exactly |
| `Bytes.FirstLine` | muduo_se/base/buffer.h:61-64 | cutting at the first line end gives a line without one and loses nothing |
| `GrowableBuffer.Buffer.constructor` | muduo_se/base/buffer.cc:47-52 | a new buffer is empty and has the given size |
| `GrowableBuffer.Buffer.FindCRLF` | muduo_se/base/buffer.h:61-64 | the search between the cursors finds the first line end of the contents |
| `GrowableBuffer.Buffer.Peek` | muduo_se/base/buffer.h:59-59 | reads a prefix of the contents without consuming it |
| `GrowableBuffer.Buffer.Retrieve` | muduo_se/base/buffer.h:73-85 | drops a prefix of the contents; the cursors go back to 0 when all is read |
| `GrowableBuffer.Buffer.Swap` | muduo_se/base/buffer.cc:128-132 | the overlapping left-to-right copy keeps the contents and moves them to the front |
| `GrowableBuffer.Buffer.Resize` | muduo_se/base/buffer.cc:134-136 | growing by len + 1 keeps the contents |
| `GrowableBuffer.Buffer.MakeRoom` | muduo_se/base/buffer.cc:87-94 | compacts or grows so that the bytes fit; contents unchanged, and the size follows the capacity rule |
| `GrowableBuffer.Buffer.Append` | muduo_se/base/buffer.cc:86-98 | appending is concatenation in place, after compaction and after growth; the size stays within max(initial, 2 * peak content), part of `Valid` |
| `GrowableBuffer.Buffer.Fill` | muduo_se/base/buffer.cc:95-96 | bytes copied behind the write cursor extend the contents |
| `GrowableBuffer.Buffer.Read` | muduo_se/base/buffer.cc:58-77 | a read appends the delivered bytes exactly if they fit into the free part, or there was none; otherwise the residue of the spill area follows them; a result of -1 drops the last byte, and breaks the cursors when the contents are empty |
| `GrowableBuffer.Buffer.Spill` | muduo_se/base/buffer.cc:72-75 | the spill path appends the delivered bytes and then as many residual ones as the free part had held |
| `GrowableBuffer.Buffer.Write` | muduo_se/base/buffer.cc:79-83 | a write drops the bytes sent; a result of -1 puts a stale byte in front, or breaks the cursor at 0 |
| `GrowableBuffer.CapacityBound` | muduo_se/base/buffer.cc:86-98 | over any run of appends and retrievals the vector never exceeds max(initial size, 2 * peak content) |
| `HttpRequests.RequestLineExact` | muduo_se/net/HttpContext.cc:6-18 | the request-line matcher accepts exactly the lines of the pattern's shape, and its three groups are the only reading |
| `HttpRequests.HeaderExact` | muduo_se/net/HttpRequest.h:135-147 | the header matcher accepts exactly the lines of the pattern's shape, with the optional space taken when present, and its two groups are the only reading |
| `HttpRequests.MethodExactly` | muduo_se/net/HttpRequest.h:54-110 | a printed method parses back to itself, and a text prints back if and only if it is one of the five names or the text for none of them |
| `HttpRequests.VersionExactly` | muduo_se/net/HttpRequest.h:14-50 | the version names the text it was parsed from if and only if that is 1.0 or 1.1 |
| `HttpRequests.HttpRequest.AddHeader` | muduo_se/net/HttpRequest.h:135-147 | stores the header, replacing an earlier value, or leaves the request alone and answers false |
| `HttpRequests.HttpRequest.AddBody` | muduo_se/net/HttpRequest.h:149-150 | the body becomes the given bytes and nothing else of the request changes |
| `HttpRequests.HttpRequest.Swap` | muduo_se/net/HttpRequest.h:189-197 | exchanges everything but the bodies; the receive time is copied one way |
| `HttpParsing.Turn` | muduo_se/net/HttpContext.cc:25-86 | a turn that goes on has consumed bytes and is past the request line; one that stops never rests in the body state; a rejection changes nothing |
| `HttpParsing.Parse` | muduo_se/net/HttpContext.cc:21-88 | terminates from every state but the final one, never stops in the body state, rejects only in the request line and then without consuming anything |
| `HttpParsing.HttpContext.ProcessRequestLine` | muduo_se/net/HttpContext.cc:6-18 | sets method, version and path, or changes nothing |
| `HttpParsing.HttpContext.RequestLineTurn` | muduo_se/net/HttpContext.cc:27-48 | the request-line branch, on the buffer in place, is one turn of the specification |
| `HttpParsing.HttpContext.HeaderTurn` | muduo_se/net/HttpContext.cc:49-69 | the header branch is one turn |
| `HttpParsing.HttpContext.BodyTurn` | muduo_se/net/HttpContext.cc:70-85 | the body branch is one turn: it takes all unread bytes |
| `HttpParsing.HttpContext.OneTurn` | muduo_se/net/HttpContext.cc:25-86 | a turn consumes bytes and leaves the rest of the same parse, or is its answer |
| `HttpParsing.HttpContext.ParseRequest` | muduo_se/net/HttpContext.cc:21-88 | the loop computes the specified parse, leaves exactly its rest in the buffer, and stamps the receive time when the request line is completed |
| `HttpParsing.HttpContext.Reset` | muduo_se/net/HttpContext.h:27-32 | back to the first state with an empty request, if and only if the body was empty already |
| `HttpGrammar.HeaderBlockRead` | muduo_se/net/HttpContext.cc:49-69 | every header block, with any line that is no header as its end, is read as the map it stands for, the last value of a key winning |
| `HttpGrammar.HeaderBlockWritten` | muduo_se/net/HttpContext.cc:49-69 | a parse that completes from the header state has read such a block and nothing else |
| `HttpGrammar.MessageRead` | muduo_se/net/HttpContext.cc:21-88 | a buffer that starts with a message parses to that message; the rest is left over, or is the body of a POST |
| `HttpGrammar.FieldsRead` | muduo_se/net/HttpContext.cc:6-88 | the three parts of the request line become method, version and path, the headers those of the block, and the rest stays, or is the body of a POST |
| `HttpGrammar.MessageWritten` | muduo_se/net/HttpContext.cc:21-88 | a completed parse comes with the message it has read |
| `HttpGrammar.CompletesExactly` | muduo_se/net/HttpContext.cc:21-88 | the parser completes on exactly the buffers that start with a message of the grammar |
| `HttpGrammar.RefusedExactly` | muduo_se/net/HttpContext.cc:27-48 | the parser refuses exactly when it waits for a request line and the first whole line is none |
| `HttpGrammar.Resume` | muduo_se/net/HttpContext.cc:21-88 | stopping short on `a` and going on with `b` gives the same answer, state, request and leftover as parsing `a + b` at once |
| `HttpGrammar.Extend` | muduo_se/net/HttpContext.cc:21-88 | bytes behind a completed request stay in the buffer, or go into the body of a POST |
| `HttpGrammar.ExtendExactly` | muduo_se/net/HttpContext.cc:49-86 | they only extend the leftover if and only if the request is no POST or there are none |
| `HttpGrammar.RejectionIsFinal` | muduo_se/net/HttpContext.cc:27-42 | a rejected request line stays rejected under every extension, with nothing consumed |
| `HttpServing.FeedKeeps` | muduo_se/net/HttpServer.cc:30-45 | one read keeps: requests dispatched, followed by what state and buffer still stand for under every future |
| `HttpServing.PostDiffers` | muduo_se/net/HttpServer.cc:30-45 | a POST overtaken by later bytes is dispatched with another body than the whole stream gives it |
| `HttpServing.RunExactly` | muduo_se/net/HttpServer.cc:30-45 | over any run, dispatched requests plus state plus buffer are in step with the whole stream if no byte overtakes a POST, and not a prefix of it if one does |
| `HttpServing.DispatchedIsPrefix` | muduo_se/net/HttpServer.cc:30-45 | for every stream and every way of cutting it, the dispatched requests are a prefix of the sequential parse of the whole stream if and only if no byte arrives after a dispatched POST |
| `HttpServing.CutsAgree` | muduo_se/net/HttpServer.cc:30-45 | two cuts of one stream dispatch the same requests as far as both have come |
| `HttpServing.CutPostExample` | muduo_se/net/HttpContext.cc:70-85 | a POST cut after its head is dispatched with an empty body |
| `HttpServing.RunBodies` | muduo_se/net/HttpRequest.h:189-197 | over any run a request that is no POST is dispatched with the body of the last POST before it |
| `HttpServing.BodiesExactly` | muduo_se/net/HttpServer.cc:39-44 | all of them have the empty body they were sent with if and only if none comes right behind a POST that had a body |
| `HttpServing.SentExactly` | muduo_se/net/HttpServer.cc:39-44 | for every sequence of messages, each in a read of its own: all are dispatched, and every one with the body it was sent with, if and only if none that is no POST was sent right behind a POST with a body |
| `HttpServing.LeftBody` | muduo_se/net/HttpContext.h:27-32 | for any methods, path, version and body: a request behind such a POST gets its body |
| `HttpServing.LeftBodyExample` | muduo_se/net/HttpContext.h:27-32 | a GET dispatched with the body of the POST before it |
| `HttpServing.RejectedForever` | muduo_se/net/HttpServer.cc:33-37 | after a rejected request line every further read is answered with 400 and nothing is ever dispatched |
| `HttpServing.RefusesExactly` | muduo_se/net/HttpServer.cc:33-37 | a read adds one 400 exactly when the parser waits for a request line and the first whole line of the unread bytes is none |
| `HttpServing.HttpConnection.OnMessage` | muduo_se/net/HttpServer.cc:30-45 | one step of the run; the parser is never left in its final state, where its loop would not end |
| `HttpServing.HttpConnection.HandleRead` | muduo_se/net/TcpConnect.cc:35-49 | a read event feeds what `Buffer::read` put into the buffer; end of file feeds nothing; a failed read takes the last byte away, or breaks the cursors exactly when there is none |
| `HttpRuns.StepExactly` | muduo_se/base/buffer.cc:58-77 | one read keeps what is parsed equal to what was received if and only if it did not fail and fitted the free part or found none |
| `HttpRuns.FaithfulExactly` | muduo_se/base/buffer.cc:58-77 | the same for every moment of every run of reads |
| `HttpRuns.GoodRunIsRun` | muduo_se/net/TcpConnect.cc:35-49 | such reads make a run of chunks whose bytes are exactly those received |
| `HttpRuns.ReceivedIsDispatched` | muduo_se/net/HttpServer.cc:30-45 | from the socket to the application: dispatched requests are a prefix of the parse of the bytes received if and only if no byte comes after a dispatched POST |
| `HttpRuns.ServesOne` | muduo_se/net/HttpServer.cc:33-44 | away from overtaken POSTs the server is a queue of requests that serves one a read, if there is one |
| `HttpRuns.NoneWaitsExactly` | muduo_se/net/HttpServer.cc:33-44 | away from overtaken POSTs, a run ends with no complete request in the buffer if and only if no stretch of reads at its end has brought more requests than it had reads |
| `HttpResponses.RoundTripExactly` | muduo_se/net/HttpResponse.cc:15-35 | the printed block, read by the header loop for a request that is no POST, gives the printer's entries overridden by the response's and leaves exactly the body, if and only if the headers are safe and the length line fits |
| `HttpResponses.SafeBlockRead` | muduo_se/net/HttpResponse.cc:15-35 | safe headers always come back behind the intro as read, for every number of length digits but 14 |
| `HttpResponses.FourteenDigitsRead` | muduo_se/net/HttpResponse.cc:21-23 | with 14 digits the cut leaves a bare CR and no header is read at all |
| `HttpResponses.LongLengthRead` | muduo_se/net/HttpResponse.cc:21-23 | with 15 digits or more the length line swallows the Connection line |
| `HttpResponses.OverriddenExactly` | muduo_se/net/HttpResponse.cc:21-32 | the intro's entries are right after overriding if and only if the length line fits |
| `HttpResponses.ReadHeadersAreSafe` | muduo_se/net/HttpRequest.h:135-147 | headers that were read never hold the characters that end them |
| `HttpResponses.HttpResponse.AppendToBuffer` | muduo_se/net/HttpResponse.cc:5-38 | the sequence of appends, with its loop over the headers, puts exactly the printed response behind the old contents |
| `HttpResponses.HttpResponse.AppendStatus` | muduo_se/net/HttpResponse.cc:9-13 | the status line, its first part cut to 31 bytes |
| `HttpResponses.HttpResponse.AppendIntro` | muduo_se/net/HttpResponse.cc:15-24 | Connection: close, or the length line cut to 31 bytes and Connection: Keep-Alive |
| `HttpResponses.HttpResponse.AppendHeaders` | muduo_se/net/HttpResponse.cc:26-32 | the loop prints every header in the map's order |
| `HttpNumbers.DigitsExactly` | muduo_se/net/HttpResponse.cc:21-21 | printed digits have the number as their base-ten value, no leading zero, and are as few as that takes |
| `HttpNumbers.DigitCount` | muduo_se/net/HttpResponse.cc:21-22 | at most k digits are printed exactly for the numbers below ten to the k |
| `HttpNumbers.LengthRead` | muduo_se/net/HttpResponse.cc:21-35 | for every body below ten to the thirteen and no entry of the response's own, the Content-Length read back has the size of the body as its value |
| `HttpNumbers.DecimalExactly` | muduo_se/net/HttpResponse.cc:9-9 | a printed integer, with its sign, reads back as itself |
| `HttpNumbers.StatusRead` | muduo_se/net/HttpResponse.cc:9-13 | the status line, when its start is not cut, reads back as version, code and message |
| `HttpNumbers.PrintedRead` | muduo_se/net/HttpResponse.cc:5-38 | the whole printed response, cut at its first line end, is that status line and then the header block and the body |
| `TcpOutput.ConservedExactly` | muduo_se/net/TcpConnect.cc:106-140 | over any run, bytes submitted are, in order, bytes on the wire followed by the queue, if and only if no write of the queue failed |
| `TcpOutput.Excess` | muduo_se/base/buffer.cc:79-83 | every failed write of the queue leaves one byte too many for good |
| `TcpOutput.SubmittedExactly` | muduo_se/net/TcpConnect.cc:106-128 | bytes submitted are, in order, those passed in, but for what a failed direct write has stopped the program at |
| `TcpOutput.WireExactly` | muduo_se/net/TcpConnect.cc:106-140 | on the wire is as much as the write calls have taken: those for the queue, and direct ones with nothing queued and no interest |
| `TcpOutput.AbortExactly` | muduo_se/net/TcpConnect.cc:112-119 | the program stops exactly at a failed direct write |
| `TcpOutput.InterestExactly` | muduo_se/net/TcpConnect.cc:106-140 | over any run, with disabling of events and write callbacks that come after it, write interest is on exactly while bytes are queued, if and only if no disabling has left bytes behind: found some, with nothing sent and no late write emptying the queue since |
| `TcpOutput.ShutdownExactly` | muduo_se/net/TcpConnect.cc:73-85 | exactly then the first shutdown takes effect if and only if every submitted byte is on the wire |
| `TcpOutput.ShutdownDecidedAtOnce` | muduo_se/net/TcpConnect.cc:73-85 | whatever happens later, the read side has been shut down if and only if, when that was first asked for, every byte was on the wire or bytes had been left behind |
| `TcpOutput.ShutdownLostExample` | muduo_se/net/TcpConnect.cc:73-85 | a shutdown asked for while a byte waits never takes effect, though the byte gets out |
| `TcpOutput.ShutdownAfterDisableExample` | muduo_se/net/TcpConnect.cc:53-60 | the read side is shut down while a byte is queued, which the disabling has left there |
| `TcpOutput.LateWriteExample` | muduo_se/net/Channel.cc:76-83 | end of file and room to write in one dispatch: the late write empties the queue and nothing is left behind |
| `TcpOutput.TcpConnect.SendInLoop` | muduo_se/net/TcpConnect.cc:106-128 | direct write when nothing is queued, the rest into the buffer with write interest; a failed direct write stops at the assertion |
| `TcpOutput.TcpConnect.HandleWrite` | muduo_se/net/TcpConnect.cc:130-140 | with write interest on or off: drops what was sent and ends the interest when the buffer is empty; what a failure does |
| `TcpOutput.TcpConnect.Shutdown` | muduo_se/net/TcpConnect.cc:73-78 | only the first call goes on to shutdownloop |
| `TcpOutput.TcpConnect.ShutdownLoop` | muduo_se/net/TcpConnect.cc:80-85 | shuts the read side down unless writing, and leaves the queue, the wire and the interest alone |
| `TcpOutput.TcpConnect.DisableAll` | muduo_se/net/TcpConnect.cc:53-60 | write interest is off and the queue stays as it is |
| `HttpAnswers.StepKeeps` | muduo_se/net/HttpServer.cc:30-64 | every read, end of file and write keeps: bytes submitted are the texts of the answers, which are the replies to the requests dispatched and the 400s to the reads refused |
| `HttpAnswers.WholePath` | muduo_se/net/HttpServer.cc:30-64 | at every moment of every run: the texts of the answers are, in order, the wire followed by the queue, if and only if no write of the queue failed, and the requests replied to are a prefix of those in the bytes received, if and only if no byte has come after a dispatched POST |
| `HttpAnswers.OnlyRefusalsFollow` | muduo_se/net/HttpServer.cc:33-37 | from the first 400 on no request is ever replied to |
| `HttpAnswers.RefusalExactly` | muduo_se/net/HttpServer.cc:33-37 | a read is answered with 400 exactly when the parser waits for a request line and the first whole line of the unread bytes is none |
| `HttpAnswers.BadRequestIs` | muduo_se/net/HttpServer.cc:35-35 | the 400 is the status line that the printer prints for version 1, code 400 and that message, and an empty line |
| `HttpAnswers.AskedExactly` | muduo_se/net/HttpServer.cc:36-62 | at every moment of every run, a shutdown has been asked for if and only if some answer was a 400 or a response that closes |
| `HttpAnswers.ShutBehindAnswer` | muduo_se/net/HttpServer.cc:36-62 | behind the first such answer, and for ever after, the read side is shut down if and only if that answer was written at once in full with nothing queued before it |
| `HttpAnswers.NothingAfterEnd` | muduo_se/net/TcpConnect.cc:42-60 | from the end of the file on write interest is off, nothing is read and nothing answered |
| `HttpAnswers.InterestWhileReading` | muduo_se/net/TcpConnect.cc:106-140 | until the end of the file write interest is on exactly while bytes are queued |
| `HttpAnswers.LinkIsRun` | muduo_se/net/TcpConnect.cc:106-140 | what the server does to the connection is a run of the send path, with the same failed writes |
| `HttpAnswers.HttpServer.OnRequest` | muduo_se/net/HttpServer.cc:47-64 | the response is printed into a buffer of its own and sent, with a shutdown behind it when the response closes, as AskedExactly says |
| `HttpAnswers.HttpServer.OnMessage` | muduo_se/net/HttpServer.cc:30-45 | a read is parsed and answered: 400 and shutdown, or the response to the request it completes, or nothing |
| `Timers.InsertSorted` | muduo_se/net/TimerQueue.cc:123-124 | insertion keeps the order and adds one key; the first timer is the new one exactly when it comes before the old first |
| `Timers.RemoveExact` | muduo_se/net/TimerQueue.cc:153-161 | deletion keeps the order and takes out exactly the timer with the handle |
| `Timers.DueExact` | muduo_se/net/TimerQueue.cc:185-197 | the batch is exactly the timers with expiration strictly below the clock reading, the rest exactly those at or above it |
| `Timers.FlushExact` | muduo_se/net/TimerQueue.cc:200-208 | the flush loop adds exactly the repeating timers not waiting to be deleted, restarted, and keeps list and index in agreement |
| `TimerRuns.StepKeeps` | muduo_se/net/TimerQueue.cc:62-217 | every add, cancel, batch, callback, flush and expiry keeps: list sorted and in agreement with the index, every node with one owner, descriptor readable or armed early enough |
| `TimerRuns.InvAlways` | muduo_se/net/TimerQueue.cc:62-217 | that holds at every moment of every run: whenever a timer is pending the descriptor is readable or armed no later than max(earliest expiration, last reset + 100 microseconds) |
| `TimerRuns.EndKeeps` | muduo_se/net/TimerQueue.cc:200-217 | the flush, with its test against the zero time point, leaves the descriptor armed for the earliest timer |
| `TimerRuns.NeverEarly` | muduo_se/net/TimerQueue.cc:185-193 | no timer runs before its expiration |
| `TimerRuns.OneShotRunsOnce` | muduo_se/net/TimerQueue.cc:200-208 | a timer that runs twice in a run has a positive interval |
| `TimerRuns.CancelledNeverRuns` | muduo_se/net/TimerQueue.cc:150-161 | a timer cancelled while pending never runs again |
| `TimerRuns.CancelledInBatchNeverRunsLater` | muduo_se/net/TimerQueue.cc:162-165 | a timer cancelled during its batch never runs after that batch |
| `TimerRuns.WaitingWasCancelled` | muduo_se/net/TimerQueue.cc:150-166 | only a cancel during a batch puts a handle into the waiting set |
| `TimerRuns.NeverLost` | muduo_se/net/TimerQueue.cc:150-217 | an added timer that nobody cancels, unless before its add and outside of batches, stays in the list or the running batch, for ever if it repeats, else until it runs; the never emptied waiting set does not get in the way |
| `TimerRuns.PendingWhenIdle` | muduo_se/net/TimerQueue.cc:200-208 | between batches an uncancelled repeating timer is in the list and in the index |
| `TimerRuns.CancelledBeforeAddRunsOnce` | muduo_se/net/TimerQueue.cc:162-165 | a timer cancelled during a batch before its add has reached the loop runs at most once, even if it repeats |
| `TimerRuns.EarlyCancelExactly` | muduo_se/net/TimerQueue.cc:150-208 | a repeating timer with only such early cancels is pending for ever if they all came outside of batches, and runs at most once if one came during a batch |
| `TimerRuns.TwoRuns` | muduo_se/net/TimerQueue.cc:169-208 | the later of two runs of a timer is in a batch whose first clock reading is not before the earlier batch's second one, and whose second one is more than an interval after the earlier batch's first |
| `TimerRuns.Spacing` | muduo_se/net/TimerQueue.cc:169-208 | a timer that runs m + 1 times spans more than ceil(m/2) intervals between the first batch's first clock reading and the last batch's second one |
| `TimerHandles.WrongHandleFindsNothing` | muduo_se/net/TimerQueue.cc:150-166 | while a timer lives, a handle with its address and another number is in no index |
| `TimerHandles.HandleStopsExactly` | muduo_se/net/TimerQueue.cc:54-59 | cancelling a pending timer by the returned handle takes it out, for good, if and only if no other timer was constructed in between |
| `TimerHandles.WrongHandleNeverStops` | muduo_se/net/TimerQueue.cc:54-59 | otherwise a repeating timer goes on for ever, and the handle never finds it |
| `TimerHandles.ArmedWithin` | muduo_se/net/TimerQueue.cc:131-141 | the descriptor is set for the later of the time wanted and 100 microseconds from now, to the microsecond |
| `TimerHandles.ArmedExactly` | muduo_se/net/TimerQueue.cc:62-141 | at every moment of every run, an armed descriptor has been set by the last add of a new earliest timer or flush that left one, for the later of the earliest expiration then and 100 microseconds after that, to the microsecond |
| `TimerHandles.ExpiryNotEarly` | muduo_se/net/TimerQueue.cc:131-141 | no expiry comes a microsecond or more before that |
| `TimerHandles.BatchOrdered` | muduo_se/net/TimerQueue.cc:188-192 | callbacks of a batch run in the order of their expirations |
| `TimerHandles.NextExpiration` | muduo_se/net/TimerQueue.cc:200-208 | a due repeating timer that no cancel has marked is pending again at the end of its batch, with the batch's first clock reading plus its interval as its expiration; any other does not come back |
| `TimerHandles.ReadableExactly` | muduo_se/net/TimerQueue.cc:169-217 | the descriptor is readable if and only if it has expired and was not set since |
| `TimerHandles.SpinsUntilAdd` | muduo_se/net/TimerQueue.cc:210-216 | with nothing pending a readable descriptor stays readable, and every batch empty, until a timer is added |
| `TimerQueues.RunIsOk` | muduo_se/net/TimerQueue.cc:62-217 | whatever the environment does, the queue's methods may be called for it, and the invariant holds at the end |
| `TimerQueues.EventsAreRun` | muduo_se/net/TimerQueue.cc:62-217 | the worlds the methods pass through are a run, so the theorems over runs are about the queue |
| `TimerQueues.TimeNode.Restart` | muduo_se/net/TimerQueue.cc:27-34 | a repeating timer becomes the restarted one of the specification, a one-shot gets the zero time point; nothing else changes |
| `TimerQueues.TimerQueue.AddTimeNode` | muduo_se/net/TimerQueue.cc:54-59 | the new node has the next number; the handle has its address and the number of the last timer constructed by then |
| `TimerQueues.TimerQueue.AddTimeNodeInLoop` | muduo_se/net/TimerQueue.cc:62-69 | one add step: both containers and the descriptor, reset only for a new earliest timer |
| `TimerQueues.TimerQueue.Insert` | muduo_se/net/TimerQueue.cc:72-128 | the node is put into the ordered list and the index; the flag says whether it is the new earliest |
| `TimerQueues.TimerQueue.DelTimeNodeInLoop` | muduo_se/net/TimerQueue.cc:150-166 | one cancel step: pending timers go from both containers, others are remembered while callbacks run |
| `TimerQueues.TimerQueue.Erase` | muduo_se/net/TimerQueue.cc:155-161 | the entry found by the indexed node's expiration and address is the right one, and both containers lose it |
| `TimerQueues.TimerQueue.GetExpired` | muduo_se/net/TimerQueue.cc:185-197 | one batch step: due timers move in order from both containers into the batch |
| `TimerQueues.TimerQueue.Fflash` | muduo_se/net/TimerQueue.cc:200-217 | one flush step: the loop over the batch, then the descriptor |
| `TimerQueues.TimerQueue.FlushEntry` | muduo_se/net/TimerQueue.cc:201-208 | one entry of it: restart changes the expiration only while no container is keyed by it |
| `TimerQueues.TimerQueue.Expire` | muduo_se/net/TimerQueue.cc:131-141 | the kernel timer's expiry is one step |
| `TimerQueues.TimerQueue.HandleRead` | muduo_se/net/TimerQueue.cc:169-182 | a whole expiration, with callbacks that add and cancel and with expiries in the meantime, is the run batch, callbacks in order, flush |
| `LogRuns.StepKeeps` | muduo_se/base/rlog.h:106-149 | away from the two breaking events every step keeps: log in order, full buffers one arc from the consumer's next one, then the current one, then empty ones, and the memory bound |
| `LogRuns.OrderedExactly` | muduo_se/base/rlog.cc:61-89 | over any run, at every moment the file followed by the buffers to come is exactly the accepted lines in order, if and only if no buffer is linked in between clear and advance and every buffer written has no NUL among its bytes and one right behind them |
| `LogRuns.OrderedByMark` | muduo_se/base/buffer.cc:28-43 | with lines free of NULs: if and only if no buffer is linked in there and every buffer written is below its capacity, filled as far as it has ever been, with a NUL there from the start |
| `LogRuns.KeptAlways` | muduo_se/base/buffer.cc:28-43 | behind a buffer's bytes lies what earlier lines have left, up to its mark, and then the memory it was given |
| `LogRuns.MarkExactly` | muduo_se/base/buffer.cc:40-43 | such a buffer streams as its own bytes if and only if it is at its mark, with room and a NUL there |
| `LogRuns.InvUntilBreak` | muduo_se/base/rlog.h:106-149 | the whole invariant holds in every state before the first breaking event |
| `LogRuns.BadSpliceBreaks` | muduo_se/base/rlog.h:126-135 | linking in a buffer between clear and advance always loses the order |
| `LogRuns.StreamsExactly` | muduo_se/base/buffer.cc:40-43 | streaming a buffer puts out its own bytes if and only if none of them is NUL and a NUL lies right behind them |
| `LogRuns.PersistOrdered` | muduo_se/base/rlog.cc:84-84 | writing a buffer keeps the log in order under exactly that condition on its memory |
| `LogRuns.DropsExactly` | muduo_se/base/rlog.h:93-148 | a line is dropped exactly within five seconds after a drop, or when every other buffer is full, it does not fit into the current one and one more buffer would exceed the limit; else it is accepted. A drop for want of a buffer starts the five seconds and an accepted line ends them |
| `LogRuns.RotateAppend` | muduo_se/base/rlog.h:106-149 | between clear and advance, away from a splice, appending in the order of the links is appending in the consumer's order |
| `LogExamples.BadSpliceReached` | muduo_se/base/rlog.h:126-135 | for every size of buffer and every limit with room for a fourth one: a run with lines of one byte after which the last line would be written first |
| `LogExamples.BadSpliceExample` | muduo_se/base/rlog.h:126-135 | so also with the 30 MB buffers and the 3 GB limit of the program |
| `LogExamples.IdleRepeats` | muduo_se/base/rlog.cc:61-89 | for every line and every number of rounds: one line logged into zeroed buffers is written once more with every third timeout of an idle logger |
| `LogExamples.RepeatedIsNotOrdered` | muduo_se/base/buffer.cc:35-43 | from the first repetition on the log is out of order |
| `LogExamples.BuffersAtMost` | muduo_se/base/rlog.h:120-134 | before any breaking event the program's ring grows to 102 buffers and no further |
| `LogExamples.IdleRound` | muduo_se/base/rlog.cc:61-89 | three timeouts bring any logger at rest back to where it was, but for the leftovers of all three buffers, written again |
| `LogRing.PendingIsAll` | muduo_se/base/rlog.cc:61-89 | on an arc, the buffers from the consumer's next one to the current one hold everything there is in the ring |
| `LogRing.CStringExactly` | muduo_se/base/buffer.cc:40-43 | a C string of some memory is its first bytes if and only if none of them is NUL and a NUL follows inside the memory |
| `Rlogs.CellBuffer.Append` | muduo_se/base/buffer.cc:28-33 | copies the line over the memory behind the bytes, or does nothing when there is no room |
| `Rlogs.CellBuffer.Clear` | muduo_se/base/buffer.cc:35-38 | empties and frees the buffer; its memory stays as it is |
| `Rlogs.CellBuffer.Persist` | muduo_se/base/buffer.cc:40-43 | streams the memory as a C string and clears the buffer |
| `Rlogs.Rlog.constructor` | muduo_se/base/rlog.cc:91-128 | three linked empty buffers, consumer and producer at the first |
| `Rlogs.Rlog.MakeRing` | muduo_se/base/rlog.cc:102-122 | new buffers linked both ways into a circle |
| `Rlogs.Rlog.MakeChain` | muduo_se/base/rlog.cc:102-120 | the loop of it: new buffers, linked one behind the other |
| `Rlogs.Rlog.TryAppend` | muduo_se/base/rlog.h:89-153 | one append step on the linked ring; the consumer is notified exactly when the current buffer moves on |
| `Rlogs.Rlog.Store` | muduo_se/base/rlog.h:106-149 | the part under the lock: append, overflow into another buffer, or drop |
| `Rlogs.Rlog.OpenNext` | muduo_se/base/rlog.h:115-140 | on to the next buffer, to a new one when that is full, or to the full one at the limit |
| `Rlogs.Rlog.Splice` | muduo_se/base/rlog.h:128-134 | the four pointer updates give a circle with the new buffer behind the current one |
| `Rlogs.Rlog.CircleSpliced` | muduo_se/base/rlog.h:128-134 | linking a buffer in gives the longer circle |
| `Rlogs.Rlog.Take` | muduo_se/base/rlog.cc:63-78 | one step of the consumer: after a timeout it takes the buffer being filled |
| `Rlogs.Rlog.Persist` | muduo_se/base/rlog.cc:84-84 | one step: the consumer's buffer is streamed from its memory and cleared |
| `Rlogs.Rlog.Advance` | muduo_se/base/rlog.cc:86-87 | one step: the consumer moves to the next buffer |
| `BlockingQueues.StepKeeps` | muduo_se/base/blockqueue.h:54-82 | every push, notification, pop turn and spurious wakeup keeps first-in-first-out, and queued items <= woken consumers + notifications owed while a consumer sleeps |
| `BlockingQueues.NoItemStranded` | muduo_se/base/blockqueue.h:54-82 | at every moment of every run with any number of threads |
| `BlockingQueues.AsleepExactly` | muduo_se/base/blockqueue.h:72-77 | a thread sleeps exactly if it has found the queue empty and nothing has woken it since |
| `BlockingQueues.WokenExactly` | muduo_se/base/blockqueue.h:72-77 | it is on its way back exactly if something has woken it and it has not tried again |
| `BlockingQueues.ItemsExactly` | muduo_se/base/blockqueue.h:54-82 | popped are as many of the items pushed, from the first on, as turns of pop found the queue not empty; the rest is in the queue |
| `BlockingQueues.OwedExactly` | muduo_se/base/blockqueue.h:54-60 | every push brings one notification |
| `BlockingQueues.BlockingQueue.Push` | muduo_se/base/blockqueue.h:54-60 | the locked part of push is one step |
| `BlockingQueues.BlockingQueue.TryPop` | muduo_se/base/blockqueue.h:72-82 | a turn of pop takes the front item or goes to sleep |
| `BoundedQueues.NextKeeps` | muduo_se/base/blockqueue.h:100-131 | every step keeps first-in-first-out, size <= capacity, items <= woken consumers while a consumer sleeps, free slots <= woken producers while a producer sleeps |
| `BoundedQueues.NothingStranded` | muduo_se/base/blockqueue.h:100-131 | at every moment of every run with any number of threads |
| `BoundedQueues.StoredExactly` | muduo_se/base/blockqueue.h:100-131 | a turn of push stores its item exactly if the queue is not full; popped are as many of these, from the first on, as turns of pop found the queue not empty |
| `BoundedQueues.ConsumerAsleepExactly` | muduo_se/base/blockqueue.h:120-125 | a consumer sleeps exactly if it has found the queue empty and no push that succeeded, nor chance, has woken it since |
| `BoundedQueues.ProducerAsleepExactly` | muduo_se/base/blockqueue.h:100-104 | a producer sleeps exactly if it has found the queue full and no pop that succeeded, nor chance, has woken it since |
| `BoundedQueues.ConsumerWokenExactly` | muduo_se/base/blockqueue.h:100-125 | a consumer is on its way back exactly if it was woken and has not tried again |
| `BoundedQueues.ProducerWokenExactly` | muduo_se/base/blockqueue.h:100-131 | a producer is on its way back exactly if it was woken and has not tried again |
| `BoundedQueues.DeadlockExactly` | muduo_se/base/blockqueue.h:91-131 | a state with sleepers on both sides and nobody woken can be reached if and only if the capacity is 0 |
| `BoundedQueues.BoundedBlockingQueue.TryPush` | muduo_se/base/blockqueue.h:100-107 | a turn of push stores the item and notifies a consumer, or goes to sleep |
| `BoundedQueues.BoundedBlockingQueue.TryPop` | muduo_se/base/blockqueue.h:120-131 | a turn of pop takes the front item and notifies a producer, or goes to sleep |
| `EventLoops.StepKeeps` | muduo_se/net/EventLoop.cc:127-168 | every push, wake, poll, read and batch step keeps executed + batch + pending = pushed, and a wakeup for pending work |
| `EventLoops.OnceAndInOrder` | muduo_se/net/EventLoop.cc:146-168 | in every run the functors executed are, once each and in order, those pushed |
| `EventLoops.ExecutedExactly` | muduo_se/net/EventLoop.cc:146-168 | the functors executed are as many of those pushed, from the first on, as the loops over the batches have made turns |
| `EventLoops.NoLostWakeup` | muduo_se/net/EventLoop.cc:127-168 | at the poll with work pending and no producer between push and wake, the wake channel is ready |
| `EventLoops.ReadyExactly` | muduo_se/net/EventLoop.cc:127-135 | the wake channel is ready exactly if a wake has come since it was last handled |
| `EventLoops.BatchIsDone` | muduo_se/net/EventLoop.cc:157-168 | everything pushed before a batch is taken is executed by the time the loop polls again |
| `EventLoops.EventLoop.QueueLoop` | muduo_se/net/EventLoop.cc:146-155 | pushes under the lock and wakes unless called in the loop thread outside the batch |
| `EventLoops.EventLoop.RunInLoop` | muduo_se/net/EventLoop.cc:137-144 | in the loop's own thread the functor is run at once, in any other it is queued |
| `EventLoops.EventLoop.SwapPending` | muduo_se/net/EventLoop.cc:158-163 | raises the flag and takes the whole pending list as the batch |
| `EventLoops.EventLoop.RunOne` | muduo_se/net/EventLoop.cc:164-166 | the functors of the batch run in order |
| `EventLoops.EventLoop.FinishPending` | muduo_se/net/EventLoop.cc:167-167 | clears the flag once the batch is empty |
| `EventLoops.EventLoop.DoPendFunc` | muduo_se/net/EventLoop.cc:157-168 | the whole of dopendfunc, while other threads push and wake: it runs exactly the functors pending at its start, in order, by a run of steps |
| `EventLoops.ActionsAreRun` | muduo_se/net/EventLoop.cc:127-168 | what its methods pass through is a run, so the theorems over runs are about the loop |
| `EpollPollers.UpKeeps` | muduo_se/net/EpollPoller.cc:69-100 | whatever mask a channel has been given, upChannel brings the kernel into agreement by a legal call |
| `EpollPollers.StepKeeps` | muduo_se/net/EpollPoller.cc:69-116 | every operation keeps table and kernel in agreement with the channels, and the epoll_ctl call it makes is legal |
| `EpollPollers.AgreeAlways` | muduo_se/net/EpollPoller.cc:69-116 | after every sequence of operations the kernel holds exactly the channels with index kin, with their masks, and no call was refused on the way |
| `EpollPollers.RegisteredExactly` | muduo_se/net/EpollPoller.cc:69-116 | an update takes a channel out of the kernel exactly when it is in and its mask has become empty, and puts it in otherwise; removing takes it out of kernel and table |
| `EpollPollers.BitsExactly` | muduo_se/net/Channel.h:24-27 | each operation sets or clears exactly its own bits, 1 and 2 for reading and 4 for writing, of its own channel |
| `EpollPollers.MaskExactly` | muduo_se/net/Channel.h:24-27 | after any operations, a mask has the write bit exactly if writing was turned on last, and both read bits exactly if reading was |
| `EpollPollers.KernelPollsExactly` | muduo_se/net/EpollPoller.cc:69-142 | what the kernel polls a registered descriptor for is what was turned on last |
| `EpollPollers.DelChannelClears` | muduo_se/net/TcpConnect.cc:53-71 | disabling and removing goes through from any index, also when events were disabled before, and leaves no trace |
| `EpollPollers.Channel.EnableReading` | muduo_se/net/Channel.h:24-24 | sets the read bits and updates the registration |
| `EpollPollers.Channel.EnableWriting` | muduo_se/net/Channel.h:25-25 | sets the write bit |
| `EpollPollers.Channel.DisableWriting` | muduo_se/net/Channel.h:26-26 | clears the write bit |
| `EpollPollers.Channel.DisableAll` | muduo_se/net/Channel.h:27-27 | clears the mask |
| `EpollPollers.EpollPoller.UpChannel` | muduo_se/net/EpollPoller.cc:69-100 | adds, changes or deletes by index and mask; both look-ups in the table succeed |
| `EpollPollers.EpollPoller.RemoveChannel` | muduo_se/net/EpollPoller.cc:103-116 | takes the channel out of the table, and out of the kernel when it is still in |
| `EpollPollers.EpollPoller.PointerFound` | muduo_se/net/EpollPoller.cc:130-142 | the pointer that the kernel keeps with a descriptor is the channel that the table has for it |
| `EpollPollers.EpollPoller.FillActiveChannel` | muduo_se/net/EpollPoller.cc:118-128 | every pointer the kernel reports passes both look-ups and is handed out with its events |

## Left out

- Bytes are Dafny characters; the theorems hold for all of them, and bytes are the first 256. Signedness plays no part.
- Sizes, times, descriptors and intervals are unbounded integers; the 32-bit `int` sizes of `Buffer` and the 32-bit
  interval of a timer do not overflow in the model. The one place where wrap-around decides a branch, the unsigned
  64-bit difference in the logger's rate limit, is modelled.
- HttpRequests.HttpRequest.AddBody: does not rewrite the path for login and sign-up forms, because that asks the user
  table in Uilt, which is not part of this model.
- HttpServing.HttpConnection.OnMessage: a dispatched request and a 400 answer are recorded here and sent in
  `HttpAnswers`.
- HttpServing.HttpConnection.HandleRead: the disabling of events at the end of the file is a step of `HttpAnswers`.
- HttpAnswers.HttpServer.OnRequest: the application's callback is known by its response, which is a parameter, and so
  is whether that closes; the default from the request's Connection header is not computed.
- HttpAnswers.WholePath: reads are given by the bytes they put into the buffer; what that has to do with the bytes
  received is `HttpRuns.FaithfulExactly`. A failed direct write ends a run, at the assertion.
- HttpRuns.FaithfulExactly: after a failed read has put the cursors out of order nothing is said about the connection.
- HttpRuns.NoneWaitsExactly: says nothing of a run in which bytes overtake a dispatched POST, because which requests
  have arrived is then a matter of the cuts.
- HttpResponses.HttpResponse.AppendToBuffer: the order in which the header map is walked is a parameter, any
  enumeration of the keys.
- GrowableBuffer.Buffer.Read: the memory behind the 1024-byte spill area is a parameter, since the code reads past it;
  within the area the bytes not delivered are zero.
- TcpOutput.TcpConnect.SendInLoop: sends and shutdowns from other threads, which reach the loop later, and the raw
  pointer such a send carries are not part of this model.
- Timers: callbacks run on the loop thread and are known by the adds and cancels they make; the wall clock and the
  monotonic clock are one clock that never goes back; node memory is represented by distinct addresses of live nodes,
  which may be used again once a node is gone.
- TimerQueues.TimerQueue.AddTimeNode: how many other timers are constructed in between is a parameter; the step into
  the loop thread is `EventLoops`.
- Rlogs.Rlog.TryAppend: the part before the lock (formatting, the rate limit, clearing `lst_lts`) and the part under it
  are one step, so producers racing on `lst_lts` are not modelled; the seconds are positive. A line is not empty, fits
  into one buffer, and was not cut by `snprintf`: for a line longer than LOG_LEN_LIMIT the code counts more bytes than
  it formatted.
- Rlogs.Rlog.Persist: the line end that `std::endl` adds after each buffer, the choice of the file and its rotation are
  not modelled; once a buffer without a NUL in its memory has been streamed, the file counts as out of order.
- Destruction of the logger, its singleton and its log levels.
- BlockingQueues.BlockingQueue.TryPop: which item a sleeping producer holds is not part of the state; each turn of a
  wait loop is a step of its own, and the loop around the turns, which may never end, is not a method.
- EventLoops.EventLoop.QueueLoop: in the loop's own thread `runinloop` never reaches it; that branch is modelled as the
  code has it, with push and wake as one step. The eventfd counter does not overflow; `quit` and the 300 ms timeout of
  the poll do not appear, a poll may return at any time.
- EpollPollers.EpollPoller.FillActiveChannel: which of its descriptors the kernel reports is a parameter, each at most
  once; the growth of the event array and interrupted polls are left out. A descriptor has one channel at a time.
- PollPoller, the thread pool, the countdown latch, sockets and addresses, Accept, the connection table of TcpServer,
  object lifetimes through shared and weak pointers, and the example servers.
- Liveness: the theorems are about safety, order and the absence of lost wakeups, not about real time.
