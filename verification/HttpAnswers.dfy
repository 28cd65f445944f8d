/** The whole path of a connection of muduo_se/net/HttpServer.cc, from the bytes received to the bytes on the
    wire: reads, answers and the send path in one state machine. */
module HttpAnswers {
  import opened Bytes
  import opened GrowableBuffer
  import opened HttpRequests
  import opened HttpParsing
  import opened HttpServing
  import opened HttpResponses
  import HttpGrammar
  import Output = TcpOutput

  const BAD_REQUEST := "HTTP/1.1 400 Bad Request\r\n\r\n"

  /** What a read is answered with: 400, or the application's response to the request it has completed. */
  datatype Answer = Refusal | Reply(req: Request, response: Response, order: seq<string>)

  predicate Printable(response: Response, order: seq<string>) {
    forall k | k in order :: k in response.headers
  }

  function AnswerText(a: Answer): string {
    match a
    case Refusal => BAD_REQUEST
    case Reply(_, response, order) => if Printable(response, order) then Printed(response, order) else ""
  }

  predicate Closes(a: Answer) {
    a.Refusal? || a.response.close
  }

  function AllText(answers: seq<Answer>): string {
    if answers == [] then "" else AllText(answers[..|answers| - 1]) + AnswerText(answers[|answers| - 1])
  }

  /** The requests replied to, in order, and how often a read was refused. */
  function Replied(answers: seq<Answer>): seq<Request> {
    if answers == [] then []
    else
      var last := answers[|answers| - 1];
      Replied(answers[..|answers| - 1]) + if last.Reply? then [last.req] else []
  }

  function Refused(answers: seq<Answer>): nat {
    if answers == [] then 0
    else Refused(answers[..|answers| - 1]) + if answers[|answers| - 1].Refusal? then 1 else 0
  }

  /** `reading` until the end of the file, where all events are disabled. */
  datatype Talk = Talk(conn: Connection, link: Output.Link, answers: seq<Answer>, reading: bool)

  const NEW_TALK := Talk(NEW_CONNECTION, Output.OPEN_LINK, [], true)

  /** `response` is what the application answers if the read completes a request, and `n` the result of write(2)
      if an answer is written at once. */
  datatype Act =
    | Receive(chunk: string, response: Response, order: seq<string>, n: int)
    | EndOfFile
    | Writable(n: int)
    | WriteFails(stale: char)

  function AnswerTo(c: Connection, chunk: string, response: Response, order: seq<string>): Option<Answer>
    requires Resting(c.ctx)
  {
    var o := Parse(c.ctx, c.buf + chunk);
    if !o.ok then Some(Refusal)
    else if o.ctx.state == GotAll then Some(Reply(o.ctx.req, response, order))
    else None
  }

  ghost predicate Enabled(t: Talk, a: Act) {
    Resting(t.conn.ctx) && !t.link.aborted &&
    match a
    case Receive(chunk, response, order, n) =>
      t.reading && chunk != "" && Enumerates(order, response.headers) &&
      var answer := AnswerTo(t.conn, chunk, response, order);
      answer.Some? ==> -1 <= n <= |AnswerText(answer.value)|
    case EndOfFile => t.reading
    case Writable(n) => Output.Enabled(t.link, Output.Writable(n))
    case WriteFails(stale) => Output.Enabled(t.link, Output.WriteFails(stale))
  }

  /** Sends a text and shuts down behind it; a failed direct write stops the program before that. */
  function SentOn(link: Output.Link, text: string, n: int, close: bool): Output.Link
    requires !link.aborted && -1 <= n <= |text|
  {
    var s := Output.Step(link, Output.Send(text, n));
    if close && !s.aborted then Output.Step(s, Output.Shutdown) else s
  }

  ghost function Step(t: Talk, a: Act): Talk
    requires Enabled(t, a)
  {
    match a
    case Receive(chunk, response, order, n) =>
      (match AnswerTo(t.conn, chunk, response, order)
       case None => t.(conn := Feed(t.conn, chunk))
       case Some(answer) =>
         Talk(Feed(t.conn, chunk), SentOn(t.link, AnswerText(answer), n, Closes(answer)), t.answers + [answer], t.reading))
    case EndOfFile => t.(link := Output.Step(t.link, Output.Disable), reading := false)
    case Writable(n) => t.(link := Output.Step(t.link, Output.Writable(n)))
    case WriteFails(stale) => t.(link := Output.Step(t.link, Output.WriteFails(stale)))
  }

  ghost predicate IsRun(ts: seq<Talk>, acts: seq<Act>) {
    && |ts| == |acts| + 1 && ts[0] == NEW_TALK
    && forall i | 0 <= i < |acts| :: Enabled(ts[i], acts[i]) && ts[i + 1] == Step(ts[i], acts[i])
  }

  /** What was submitted is the text of the answers, which are those to the requests dispatched and to the
      reads refused. */
  predicate InStepWith(t: Talk) {
    && Replied(t.answers) == t.conn.dispatched && Refused(t.answers) == t.conn.rejected
    && (!t.link.aborted ==> t.link.submitted == AllText(t.answers))
  }

  lemma OneMoreAnswer(answers: seq<Answer>, a: Answer)
    ensures AllText(answers + [a]) == AllText(answers) + AnswerText(a)
    ensures Replied(answers + [a]) == Replied(answers) + if a.Reply? then [a.req] else []
    ensures Refused(answers + [a]) == Refused(answers) + if a.Refusal? then 1 else 0
  {
    assert (answers + [a])[..|answers|] == answers;
  }

  lemma SentSubmits(link: Output.Link, text: string, n: int, close: bool)
    requires !link.aborted && -1 <= n <= |text|
    ensures var s := SentOn(link, text, n, close); !s.aborted ==> s.submitted == link.submitted + text
  {
  }

  lemma FeedAnswers(c: Connection, chunk: string, response: Response, order: seq<string>)
    requires Resting(c.ctx)
    ensures var d, a := Feed(c, chunk), AnswerTo(c, chunk, response, order);
      && d.dispatched == c.dispatched + (if a.Some? && a.value.Reply? then [a.value.req] else [])
      && d.rejected == c.rejected + if a.Some? && a.value.Refusal? then 1 else 0
  {
  }

  /** A read is answered with 400 exactly when the parser waits for a request line and the first whole line of
      the unread bytes is none. */
  lemma RefusalExactly(c: Connection, chunk: string, response: Response, order: seq<string>)
    requires Resting(c.ctx)
    ensures AnswerTo(c, chunk, response, order) == Some(Refusal)
       <==> c.ctx.state == ExpectRequestLine && HttpGrammar.BadLineFirst(c.buf + chunk)
  {
    HttpGrammar.RefusedExactly(c.ctx, c.buf + chunk);
  }

  /** The 400 is a response as the printer prints it, without headers. */
  lemma BadRequestIs(r: Response)
    requires r.version == 1 && r.statusCode == 400 && r.statusMessage == "Bad Request"
    ensures BAD_REQUEST == StatusLine(r) + CRLF
  {
    assert Digits(40) == "40" && Digits(400) == "400";
    assert "HTTP/1." + "1" + " " + "400" + " " == "HTTP/1.1 400 ";
  }

  lemma StepKeeps(t: Talk, a: Act)
    requires Enabled(t, a) && InStepWith(t)
    ensures InStepWith(Step(t, a))
  {
    if a.Receive? {
      FeedAnswers(t.conn, a.chunk, a.response, a.order);
      var answer := AnswerTo(t.conn, a.chunk, a.response, a.order);
      if answer.Some? {
        OneMoreAnswer(t.answers, answer.value);
        SentSubmits(t.link, AnswerText(answer.value), a.n, Closes(answer.value));
      } else {
        assert t.conn.dispatched + [] == t.conn.dispatched;
      }
    }
  }

  lemma {:induction false} InStepAlways(ts: seq<Talk>, acts: seq<Act>, i: nat)
    requires IsRun(ts, acts) && i < |ts|
    ensures InStepWith(ts[i])
  {
    if i > 0 {
      InStepAlways(ts, acts, i - 1);
      StepKeeps(ts[i - 1], acts[i - 1]);
    }
  }

  /** The chunks received and the failed writes of the queue, up to some moment. */
  function Chunks(acts: seq<Act>): seq<string> {
    if acts == [] then []
    else Chunks(acts[..|acts| - 1]) + if acts[|acts| - 1].Receive? then [acts[|acts| - 1].chunk] else []
  }

  function Failures(acts: seq<Act>): nat {
    if acts == [] then 0 else Failures(acts[..|acts| - 1]) + if acts[|acts| - 1].WriteFails? then 1 else 0
  }

  /** The connection is a run of reads. */
  lemma {:induction false} ConnIsRun(ts: seq<Talk>, acts: seq<Act>, i: nat)
    requires IsRun(ts, acts) && i < |ts|
    ensures ts[i].conn == Run(NEW_CONNECTION, Chunks(acts[..i]))
  {
    if i > 0 {
      ConnIsRun(ts, acts, i - 1);
      assert acts[..i][..i - 1] == acts[..i - 1];
      var a, before := acts[i - 1], Chunks(acts[..i - 1]);
      if a.Receive? {
        RunSnoc(NEW_CONNECTION, before, a.chunk);
      } else {
        assert before + [] == before;
      }
    }
  }

  lemma {:induction false} RunSnoc(c: Connection, chunks: seq<string>, chunk: string)
    requires Resting(c.ctx)
    ensures Run(c, chunks + [chunk]) == Feed(Run(c, chunks), chunk)
    decreases |chunks|
  {
    if chunks == [] {
      assert [chunk][1..] == [] && chunks + [chunk] == [chunk];
      assert Run(Feed(c, chunk), []) == Feed(c, chunk);
    } else {
      assert (chunks + [chunk])[1..] == chunks[1..] + [chunk];
      RunSnoc(Feed(c, chunks[0]), chunks[1..], chunk);
    }
  }

  lemma {:induction false} ReachesSnoc(s: Output.Link, es: seq<Output.Event>, t: Output.Link, e: Output.Event)
    requires Output.Reaches(s, es, t) && Output.Enabled(t, e)
    ensures Output.Reaches(s, es + [e], Output.Step(t, e))
    ensures Output.Failures(es + [e]) == Output.Failures(es) + if e.WriteFails? then 1 else 0
    decreases |es|
  {
    if es == [] {
      assert es + [e] == [e] && [e][1..] == [];
      assert Output.Reaches(Output.Step(t, e), [], Output.Step(t, e)) && Output.Failures([]) == 0;
    } else {
      assert (es + [e])[1..] == es[1..] + [e];
      ReachesSnoc(Output.Step(s, es[0]), es[1..], t, e);
    }
  }

  lemma LinkStep(t: Talk, a: Act, es: seq<Output.Event>) returns (es': seq<Output.Event>)
    requires Enabled(t, a) && Output.Reaches(Output.OPEN_LINK, es, t.link)
    ensures Output.Reaches(Output.OPEN_LINK, es', Step(t, a).link)
    ensures Output.Failures(es') == Output.Failures(es) + if a.WriteFails? then 1 else 0
  {
    match a
    case Receive(chunk, response, order, n) =>
      var answer := AnswerTo(t.conn, chunk, response, order);
      es' := es;
      if answer.Some? {
        es' := LinkSent(t.link, AnswerText(answer.value), n, Closes(answer.value), es);
      }
    case EndOfFile =>
      ReachesSnoc(Output.OPEN_LINK, es, t.link, Output.Disable);
      es' := es + [Output.Disable];
    case Writable(n) =>
      ReachesSnoc(Output.OPEN_LINK, es, t.link, Output.Writable(n));
      es' := es + [Output.Writable(n)];
    case WriteFails(stale) =>
      ReachesSnoc(Output.OPEN_LINK, es, t.link, Output.WriteFails(stale));
      es' := es + [Output.WriteFails(stale)];
  }

  lemma LinkSent(link: Output.Link, text: string, n: int, close: bool, es: seq<Output.Event>)
    returns (es': seq<Output.Event>)
    requires !link.aborted && -1 <= n <= |text| && Output.Reaches(Output.OPEN_LINK, es, link)
    ensures Output.Reaches(Output.OPEN_LINK, es', SentOn(link, text, n, close))
    ensures Output.Failures(es') == Output.Failures(es)
  {
    var send := Output.Send(text, n);
    ReachesSnoc(Output.OPEN_LINK, es, link, send);
    es' := es + [send];
    var s := Output.Step(link, send);
    if close && !s.aborted {
      ReachesSnoc(Output.OPEN_LINK, es', s, Output.Shutdown);
      es' := es' + [Output.Shutdown];
    }
  }

  /** The link is a run of the send path, with the same failures. */
  lemma {:induction false} LinkIsRun(ts: seq<Talk>, acts: seq<Act>, i: nat) returns (es: seq<Output.Event>)
    requires IsRun(ts, acts) && i < |ts|
    ensures Output.Reaches(Output.OPEN_LINK, es, ts[i].link) && Output.Failures(es) == Failures(acts[..i])
  {
    if i == 0 {
      es := [];
    } else {
      es := LinkIsRun(ts, acts, i - 1);
      assert acts[..i][..i - 1] == acts[..i - 1];
      es := LinkStep(ts[i - 1], acts[i - 1], es);
    }
  }

  /** The whole path, at every moment of every run that no failed direct write has stopped. The texts of the
      answers are, in order, what is on the wire followed by what is queued, if and only if no write of the
      queue has failed; and the requests answered are a prefix of those in the bytes received, if and only if
      no byte has come after a dispatched POST. */
  lemma WholePath(ts: seq<Talk>, acts: seq<Act>, i: nat)
    requires IsRun(ts, acts) && i < |ts| && !ts[i].link.aborted
    ensures var t, chunks := ts[i], Chunks(acts[..i]);
      && (AllText(t.answers) == t.link.wire + t.link.queue <==> Failures(acts[..i]) == 0)
      && (Replied(t.answers) <= Requests(NEW_CONNECTION.ctx, Concat(chunks)) <==> !PostOvertaken(NEW_CONNECTION, chunks, ""))
  {
    InStepAlways(ts, acts, i);
    ConnIsRun(ts, acts, i);
    DispatchedIsPrefix(Chunks(acts[..i]));
    var es := LinkIsRun(ts, acts, i);
    Output.ConservedExactly(es, ts[i].link);
  }

  lemma InterestStep(t: Talk, a: Act)
    requires Enabled(t, a) && Output.Agrees(t.link) && !a.EndOfFile?
    ensures Output.Agrees(Step(t, a).link)
  {
    if a.Receive? {
      var answer := AnswerTo(t.conn, a.chunk, a.response, a.order);
      if answer.Some? {
        SentAgrees(t.link, AnswerText(answer.value), a.n, Closes(answer.value));
      }
    }
  }

  /** Until the end of the file write interest is on exactly while bytes are queued. */
  lemma {:induction false} InterestWhileReading(ts: seq<Talk>, acts: seq<Act>, i: nat)
    requires IsRun(ts, acts) && i < |ts| && ts[i].reading
    ensures Output.Agrees(ts[i].link)
  {
    if i > 0 {
      InterestWhileReading(ts, acts, i - 1);
      InterestStep(ts[i - 1], acts[i - 1]);
    }
  }

  lemma SentAgrees(link: Output.Link, text: string, n: int, close: bool)
    requires !link.aborted && -1 <= n <= |text| && Output.Agrees(link)
    ensures Output.Agrees(SentOn(link, text, n, close))
  {
  }

  lemma RefusalStep(t: Talk, a: Act)
    requires Enabled(t, a) && a.Receive? && !Parse(t.conn.ctx, t.conn.buf + a.chunk).ok
    ensures var u := Step(t, a);
      && u.conn.ctx == t.conn.ctx && u.conn.buf == t.conn.buf + a.chunk
      && u.answers == t.answers + [Refusal] && Replied(u.answers) == Replied(t.answers)
  {
    OneMoreAnswer(t.answers, Refusal);
    assert Replied(t.answers) + [] == Replied(t.answers);
  }

  lemma Rest(all: string, buf: string, chunk: string)
    requires all <= buf
    ensures all + (buf[|all|..] + chunk) == buf + chunk && all <= buf + chunk
  {
  }

  /** The unread bytes start with ones that are rejected. */
  predicate Stuck(t: Talk, c: Context, all: string) {
    t.conn.ctx == c && all <= t.conn.buf && Resting(c) && !Parse(c, all).ok
  }

  lemma StuckStep(t: Talk, a: Act, c: Context, all: string)
    requires Enabled(t, a) && Stuck(t, c, all)
    ensures Stuck(Step(t, a), c, all) && Replied(Step(t, a).answers) == Replied(t.answers)
  {
    if a.Receive? {
      Rest(all, t.conn.buf, a.chunk);
      HttpGrammar.RejectionIsFinal(c, all, t.conn.buf[|all|..] + a.chunk);
      RefusalStep(t, a);
    }
  }

  lemma {:induction false} StuckForever(ts: seq<Talk>, acts: seq<Act>, i: nat, j: nat, c: Context, all: string)
    requires IsRun(ts, acts) && i <= j < |ts| && Stuck(ts[i], c, all)
    ensures Stuck(ts[j], c, all) && Replied(ts[j].answers) == Replied(ts[i].answers)
    decreases j
  {
    if i < j {
      StuckForever(ts, acts, i, j - 1, c, all);
      StuckStep(ts[j - 1], acts[j - 1], c, all);
    }
  }

  /** Refused once, refused for good: from the first 400 on no request is ever replied to. */
  lemma OnlyRefusalsFollow(ts: seq<Talk>, acts: seq<Act>, i: nat, j: nat)
    requires IsRun(ts, acts) && i < j <= |acts|
    requires acts[i].Receive? && !Parse(ts[i].conn.ctx, ts[i].conn.buf + acts[i].chunk).ok
    ensures Replied(ts[j].answers) == Replied(ts[i].answers)
  {
    RefusalStep(ts[i], acts[i]);
    StuckForever(ts, acts, i + 1, j, ts[i].conn.ctx, ts[i].conn.buf + acts[i].chunk);
  }

  /** An answer behind which the connection is shut down: a 400, or a response that closes. */
  ghost predicate SomeCloses(answers: seq<Answer>) {
    exists k :: 0 <= k < |answers| && (answers[k].Refusal? || answers[k].response.close)
  }

  lemma SomeClosesNext(answers: seq<Answer>, a: Answer)
    ensures SomeCloses(answers + [a]) <==> SomeCloses(answers) || a.Refusal? || a.response.close
  {
    var all := answers + [a];
    assert all[|answers|] == a && forall k | 0 <= k < |answers| :: all[k] == answers[k];
    if SomeCloses(answers) {
      var k :| 0 <= k < |answers| && (answers[k].Refusal? || answers[k].response.close);
      assert all[k] == answers[k];
    }
  }

  lemma SentAsks(link: Output.Link, text: string, n: int, close: bool)
    requires !link.aborted && -1 <= n <= |text|
    ensures var s := SentOn(link, text, n, close); !s.aborted ==> (s.asked <==> link.asked || close)
  {
  }

  lemma AskedStep(t: Talk, a: Act)
    requires Enabled(t, a) && (t.link.asked <==> SomeCloses(t.answers))
    ensures !Step(t, a).link.aborted ==> (Step(t, a).link.asked <==> SomeCloses(Step(t, a).answers))
  {
    if a.Receive? {
      var answer := AnswerTo(t.conn, a.chunk, a.response, a.order);
      if answer.Some? {
        SentAsks(t.link, AnswerText(answer.value), a.n, Closes(answer.value));
        SomeClosesNext(t.answers, answer.value);
      }
    }
  }

  /** At every moment of every run: a shutdown has been asked for if and only if some answer was a 400 or a
      response that closes. */
  lemma {:induction false} AskedExactly(ts: seq<Talk>, acts: seq<Act>, i: nat)
    requires IsRun(ts, acts) && i < |ts| && !ts[i].link.aborted
    ensures ts[i].link.asked <==> SomeCloses(ts[i].answers)
  {
    if i > 0 {
      AskedExactly(ts, acts, i - 1);
      AskedStep(ts[i - 1], acts[i - 1]);
    }
  }

  lemma SentStays(link: Output.Link, text: string, n: int, close: bool)
    requires !link.aborted && -1 <= n <= |text| && link.asked
    ensures var s := SentOn(link, text, n, close); s.asked && s.shut == link.shut
  {
  }

  /** Whether the read side was shut down does not change any more once it was asked for. */
  lemma ShutStays(t: Talk, a: Act)
    requires Enabled(t, a) && t.link.asked
    ensures Step(t, a).link.asked && Step(t, a).link.shut == t.link.shut
  {
    if a.Receive? {
      var answer := AnswerTo(t.conn, a.chunk, a.response, a.order);
      if answer.Some? {
        SentStays(t.link, AnswerText(answer.value), a.n, Closes(answer.value));
      }
    }
  }

  lemma {:induction false} ShutForever(ts: seq<Talk>, acts: seq<Act>, i: nat, j: nat)
    requires IsRun(ts, acts) && i <= j < |ts| && ts[i].link.asked
    ensures ts[j].link.asked && ts[j].link.shut == ts[i].link.shut
    decreases j
  {
    if i < j {
      ShutForever(ts, acts, i, j - 1);
      ShutStays(ts[j - 1], acts[j - 1]);
    }
  }

  lemma ClosingStep(t: Talk, a: Act, answer: Answer)
    requires Enabled(t, a) && a.Receive? && AnswerTo(t.conn, a.chunk, a.response, a.order) == Some(answer)
    requires answer.Refusal? || answer.response.close
    requires !t.link.asked && !t.link.shut && Output.Agrees(t.link) && !Step(t, a).link.aborted
    ensures var u := Step(t, a).link;
      u.asked && (u.shut <==> u.queue == "") && (u.queue == "" <==> t.link.queue == "" && a.n == |AnswerText(answer)|)
  {
  }

  lemma {:induction false} NotShutBefore(ts: seq<Talk>, acts: seq<Act>, i: nat)
    requires IsRun(ts, acts) && i < |ts| && !ts[i].link.asked
    ensures !ts[i].link.shut
  {
    if i > 0 {
      if ts[i - 1].link.asked {
        ShutStays(ts[i - 1], acts[i - 1]);
      }
      NotShutBefore(ts, acts, i - 1);
    }
  }

  /** Behind the first 400 or closing response, and for ever after, the read side is shut down if and only if that
      answer was written at once in full with nothing queued before it. */
  lemma ShutBehindAnswer(ts: seq<Talk>, acts: seq<Act>, i: nat, j: nat, answer: Answer)
    requires IsRun(ts, acts) && i < j <= |acts| && !ts[i].link.asked && !ts[i + 1].link.aborted
    requires acts[i].Receive? && AnswerTo(ts[i].conn, acts[i].chunk, acts[i].response, acts[i].order) == Some(answer)
    requires answer.Refusal? || answer.response.close
    ensures ts[j].link.asked
    ensures ts[j].link.shut <==> ts[i].link.queue == "" && acts[i].n == |AnswerText(answer)|
  {
    InterestWhileReading(ts, acts, i);
    NotShutBefore(ts, acts, i);
    ClosingStep(ts[i], acts[i], answer);
    ShutForever(ts, acts, i + 1, j);
  }

  lemma QuietStep(t: Talk, a: Act)
    requires Enabled(t, a) && !t.reading && !t.link.writing
    ensures var u := Step(t, a); !u.reading && !u.link.writing && u.answers == t.answers && u.conn == t.conn
  {
  }

  /** From the end of the file on write interest is off, nothing is read and nothing answered. */
  lemma {:induction false} NothingAfterEnd(ts: seq<Talk>, acts: seq<Act>, i: nat, j: nat)
    requires IsRun(ts, acts) && i < j <= |acts| && acts[i].EndOfFile?
    ensures !ts[j].reading && !ts[j].link.writing && ts[j].answers == ts[i].answers && ts[j].conn == ts[i].conn
    decreases j
  {
    if j > i + 1 {
      NothingAfterEnd(ts, acts, i, j - 1);
      QuietStep(ts[j - 1], acts[j - 1]);
    }
  }

  /** The server's side of one connection. */
  class HttpServer {
    const http: HttpConnection
    const tcp: Output.TcpConnect

    constructor (http: HttpConnection, tcp: Output.TcpConnect)
      ensures this.http == http && this.tcp == tcp
    {
      this.http, this.tcp := http, tcp;
    }

    /** Prints the response into a buffer of its own and sends it. */
    method OnRequest(response: HttpResponse, order: seq<string>, n: int) returns (aborted: bool)
      requires tcp.Valid() && Enumerates(order, response.headers)
      requires -1 <= n <= |Printed(response.View(), order)|
      modifies tcp, tcp.outbuffer, tcp.outbuffer.buffer
      ensures tcp.Valid()
      ensures tcp.View().(aborted := aborted)
           == SentOn(old(tcp.View()), Printed(response.View(), order), n, response.closeConnection)
    {
      var text := Print(response, order);
      aborted := SendAndClose(text, n, response.closeConnection);
    }

    static method Print(response: HttpResponse, order: seq<string>) returns (text: string)
      requires Enumerates(order, response.headers)
      ensures text == Printed(response.View(), order)
    {
      var buf := new Buffer(65535);
      response.AppendToBuffer(buf, order);
      Nothing(Printed(response.View(), order));
      text := buf.Peek(buf.ReadSize());
    }

    static lemma Nothing(s: string)
      ensures "" + s == s && s[..|s|] == s
    {
    }

    method SendAndClose(text: string, n: int, close: bool) returns (aborted: bool)
      requires tcp.Valid() && -1 <= n <= |text|
      modifies tcp, tcp.outbuffer, tcp.outbuffer.buffer
      ensures tcp.Valid() && tcp.View().(aborted := aborted) == SentOn(old(tcp.View()), text, n, close)
    {
      aborted := tcp.SendInLoop(text, n);
      if close && !aborted {
        tcp.Shutdown();
      }
    }

    /** Parses what the read has put into the buffer, and answers it: a rejected request line with 400, a completed
        request with the application's response. */
    method OnMessage(t: int, response: HttpResponse, order: seq<string>, n: int) returns (aborted: bool)
      requires http.Valid() && tcp.Valid() && Enumerates(order, response.headers)
      requires tcp.outbuffer != http.inbuffer && tcp.outbuffer.buffer != http.inbuffer.buffer
      requires var a := AnswerTo(http.View(), "", response.View(), order); a.Some? ==> -1 <= n <= |AnswerText(a.value)|
      modifies http, http.context, http.context.request, http.inbuffer`readIndex, http.inbuffer`writeIndex
      modifies tcp, tcp.outbuffer, tcp.outbuffer.buffer
      ensures http.Valid() && tcp.Valid() && http.View() == Feed(old(http.View()), "")
      ensures tcp.View().(aborted := aborted) ==
        match AnswerTo(old(http.View()), "", old(response.View()), order)
        case None => old(tcp.View())
        case Some(a) => SentOn(old(tcp.View()), AnswerText(a), n, Closes(a))
    {
      ghost var c, r := http.View(), response.View();
      var dispatched, rejected := |http.dispatched|, http.rejected;
      FeedAnswers(c, "", r, order);
      http.OnMessage(t);
      aborted := false;
      if http.rejected > rejected {
        aborted := SendAndClose(BAD_REQUEST, n, true);
      } else if |http.dispatched| > dispatched {
        aborted := OnRequest(response, order, n);
      }
    }
  }
}
