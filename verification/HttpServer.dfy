/** muduo_se/net/HttpServer.cc: one connection's read, parse, dispatch and reset cycle, over whole runs. */
module HttpServing {
  import opened Bytes
  import opened GrowableBuffer
  import opened HttpRequests
  import opened HttpParsing
  import opened HttpGrammar

  /** A connection between two reads: the parser, the unread bytes, the requests handed to the
      application so far, and how many 400 answers were sent. */
  datatype Connection = Connection(ctx: Context, buf: string, dispatched: seq<Request>, rejected: nat)

  predicate Resting(c: Context) {
    c.state == ExpectRequestLine || c.state == ExpectHeaders
  }

  const NEW_CONNECTION := Connection(Context(ExpectRequestLine, EMPTY_REQUEST), "", [], 0)

  /** One read of `chunk`: at most one request is dispatched, and the context is reset behind it. */
  function Feed(c: Connection, chunk: string): (d: Connection)
    requires Resting(c.ctx)
    ensures Resting(d.ctx)
  {
    var o := Parse(c.ctx, c.buf + chunk);
    var rejected := if o.ok then c.rejected else c.rejected + 1;
    if o.ctx.state == GotAll then
      Connection(AfterReset(o.ctx), o.rest, c.dispatched + [o.ctx.req], rejected)
    else
      Connection(o.ctx, o.rest, c.dispatched, rejected)
  }

  function Run(c: Connection, chunks: seq<string>): (d: Connection)
    requires Resting(c.ctx)
    ensures Resting(d.ctx)
    decreases |chunks|
  {
    if chunks == [] then c else Run(Feed(c, chunks[0]), chunks[1..])
  }

  function Concat(chunks: seq<string>): string {
    if chunks == [] then "" else chunks[0] + Concat(chunks[1..])
  }

  /** The reference: parse the whole byte string at once, request after request, until it runs out. */
  function Requests(c: Context, stream: string): seq<Request>
    requires Resting(c)
    decreases |stream|
  {
    var o := Parse(c, stream);
    if o.ctx.state == GotAll then [o.ctx.req] + Requests(AfterReset(o.ctx), o.rest) else []
  }

  predicate DispatchesPost(c: Connection, chunk: string)
    requires Resting(c.ctx)
  {
    var o := Parse(c.ctx, c.buf + chunk);
    o.ctx.state == GotAll && o.ctx.req.verb == Post
  }

  /** Some byte arrives after a POST has been dispatched. */
  predicate PostOvertaken(c: Connection, chunks: seq<string>, future: string)
    requires Resting(c.ctx)
    decreases |chunks|
  {
    chunks != [] &&
    ((DispatchesPost(c, chunks[0]) && Concat(chunks[1..]) + future != "")
     || PostOvertaken(Feed(c, chunks[0]), chunks[1..], future))
  }

  lemma FeedCompletes(c: Connection, chunk: string, future: string)
    requires Resting(c.ctx) && Parse(c.ctx, c.buf + chunk).ctx.state == GotAll
    requires !DispatchesPost(c, chunk) || future == ""
    ensures var d := Feed(c, chunk);
      [Parse(c.ctx, c.buf + chunk).ctx.req] + Requests(d.ctx, d.buf + future) == Requests(c.ctx, c.buf + chunk + future)
  {
    var all := c.buf + chunk;
    var o := Parse(c.ctx, all);
    Extend(c.ctx, all, future);
    if future == "" {
      assert all + future == all && o.rest + future == o.rest;
    }
  }

  /** Without a dispatched POST, one read keeps: dispatched so far + what the parser state and the buffer
      still stand for, under every continuation of the stream. */
  lemma FeedKeeps(c: Connection, chunk: string, future: string)
    requires Resting(c.ctx)
    requires !DispatchesPost(c, chunk) || future == ""
    ensures var d := Feed(c, chunk);
      d.dispatched + Requests(d.ctx, d.buf + future) == c.dispatched + Requests(c.ctx, c.buf + chunk + future)
  {
    var all := c.buf + chunk;
    if Parse(c.ctx, all).ctx.state == GotAll {
      FeedCompletes(c, chunk, future);
    } else {
      Resume(c.ctx, all, future);
    }
  }

  /** A POST overtaken by later bytes is dispatched with a shorter body than the whole stream gives it. */
  lemma PostDiffers(c: Connection, chunk: string, future: string)
    requires Resting(c.ctx)
    requires DispatchesPost(c, chunk) && future != ""
    ensures !(Feed(c, chunk).dispatched <= c.dispatched + Requests(c.ctx, c.buf + chunk + future))
  {
    var all := c.buf + chunk;
    var o := Parse(c.ctx, all);
    Extend(c.ctx, all, future);
    var whole := c.dispatched + Requests(c.ctx, all + future);
    assert whole[|c.dispatched|].body == o.ctx.req.body + future;
    assert |whole[|c.dispatched|].body| != |o.ctx.req.body|;
    assert Feed(c, chunk).dispatched[|c.dispatched|] == o.ctx.req;
  }

  lemma {:induction false} DispatchedGrows(c: Connection, chunks: seq<string>)
    requires Resting(c.ctx)
    ensures c.dispatched <= Run(c, chunks).dispatched
    decreases |chunks|
  {
    if chunks != [] {
      DispatchedGrows(Feed(c, chunks[0]), chunks[1..]);
    }
  }

  lemma Regroup(a: string, b: string, c: string, d: string)
    ensures a + (b + c) + d == a + b + (c + d)
    ensures a + c + d == a + (c + d)
  {
  }

  /** Over any run: in step with the whole stream if and only if no byte overtakes a POST. In step means
      that the dispatched requests, followed by what the parser state, the buffer and any `future` bytes
      still give, are the requests of the whole stream. */
  lemma {:induction false} RunExactly(c: Connection, chunks: seq<string>, future: string)
    requires Resting(c.ctx)
    ensures var d, whole := Run(c, chunks), c.dispatched + Requests(c.ctx, c.buf + Concat(chunks) + future);
      if PostOvertaken(c, chunks, future) then !(d.dispatched <= whole)
      else d.dispatched + Requests(d.ctx, d.buf + future) == whole
    decreases |chunks|
  {
    if chunks == [] {
      assert c.buf + Concat(chunks) + future == c.buf + future;
    } else {
      var next, later := Feed(c, chunks[0]), Concat(chunks[1..]) + future;
      Regroup(c.buf, chunks[0], Concat(chunks[1..]), future);
      Regroup(next.buf, chunks[0], Concat(chunks[1..]), future);
      if DispatchesPost(c, chunks[0]) && later != "" {
        PostDiffers(c, chunks[0], later);
        DispatchedGrows(next, chunks[1..]);
      } else {
        FeedKeeps(c, chunks[0], later);
        RunExactly(next, chunks[1..], future);
      }
    }
  }

  lemma InStep(c: Connection, chunks: seq<string>)
    requires Resting(c.ctx) && c.buf == "" && c.dispatched == []
    ensures var d, whole := Run(c, chunks), Requests(c.ctx, Concat(chunks));
      if PostOvertaken(c, chunks, "") then !(d.dispatched <= whole) else d.dispatched + Requests(d.ctx, d.buf) == whole
  {
    Trim(c.buf, Concat(chunks));
    Trim("", Run(c, chunks).buf);
    NothingBefore(c.dispatched, Requests(c.ctx, Concat(chunks)));
    RunExactly(c, chunks, "");
  }

  lemma Trim(none: string, s: string)
    requires none == ""
    ensures none + s + "" == s && s + "" == s
  {
  }

  lemma NothingBefore(none: seq<Request>, some: seq<Request>)
    requires none == []
    ensures none + some == some
  {
  }

  /** For every stream and every way of cutting it into reads: the dispatched requests are a prefix of the
      parse of the whole stream if and only if no byte arrives after a dispatched POST. */
  lemma DispatchedIsPrefix(chunks: seq<string>)
    ensures Run(NEW_CONNECTION, chunks).dispatched <= Requests(NEW_CONNECTION.ctx, Concat(chunks))
       <==> !PostOvertaken(NEW_CONNECTION, chunks, "")
  {
    InStep(NEW_CONNECTION, chunks);
  }

  /** Two cuts of one stream dispatch the same requests as far as both have come. */
  lemma CutsAgree(one: seq<string>, other: seq<string>)
    requires Concat(one) == Concat(other)
    requires !PostOvertaken(NEW_CONNECTION, one, "") && !PostOvertaken(NEW_CONNECTION, other, "")
    ensures var a, b := Run(NEW_CONNECTION, one), Run(NEW_CONNECTION, other);
      a.dispatched <= b.dispatched || b.dispatched <= a.dispatched
  {
    DispatchedIsPrefix(one);
    DispatchedIsPrefix(other);
  }

  /** A request with no headers. */
  function BareHead(m: string, p: string, v: string): string {
    m + " " + p + " HTTP/" + v + CRLF + CRLF
  }

  function Awaiting(body: string): Context { Context(ExpectRequestLine, EMPTY_REQUEST.(body := body)) }

  lemma BareHeadRead(m: string, p: string, v: string, body: string, rest: string)
    requires ' ' !in m && ' ' !in p && ' ' !in v && NoCrlf(m + " " + p + " HTTP/" + v)
    ensures Parse(Awaiting(body), BareHead(m, p, v) + rest)
         == Finish(Request(MethodOf(m), VersionOf(v), p, "", map[], body), rest)
  {
    var first := m + " " + p + " HTTP/" + v;
    RequestLineRead(m, p, v);
    RequestLineExact(first, m, p, v);
    HeaderMatches("");
    assert BareHead(m, p, v) + rest == first + CRLF + (Wire([]) + ("" + CRLF + rest));
    assert Message(BareHead(m, p, v) + rest, first, [], "", rest);
    MessageRead(EMPTY_REQUEST.(body := body), BareHead(m, p, v) + rest, first, [], "", rest);
  }

  /** The failing family is not empty: this POST is dispatched with an empty body, and its body bytes,
      in the next read, are then parsed as a new request. */
  lemma CutPostExample()
    ensures var chunks, post := [BareHead("POST", "/", "1.1"), "x=1"], Request(Post, Http11, "/", "", map[], "");
      && PostOvertaken(NEW_CONNECTION, chunks, "")
      && Run(NEW_CONNECTION, chunks).dispatched == [post]
      && Requests(NEW_CONNECTION.ctx, Concat(chunks)) == [post.(body := "x=1")]
  {
    var head := BareHead("POST", "/", "1.1");
    BareHeadRead("POST", "/", "1.1", "", "");
    BareHeadRead("POST", "/", "1.1", "", "x=1");
    CutExample(head, Request(Post, Http11, "/", "", map[], ""));
  }

  lemma CutExample(head: string, post: Request)
    requires post.verb == Post && post.body == ""
    requires forall rest | rest in {"", "x=1"} :: Parse(Awaiting(""), head + rest) == Finish(post, rest)
    ensures PostOvertaken(NEW_CONNECTION, [head, "x=1"], "")
    ensures Run(NEW_CONNECTION, [head, "x=1"]).dispatched == [post]
    ensures Requests(NEW_CONNECTION.ctx, Concat([head, "x=1"])) == [post.(body := "x=1")]
  {
    var chunks := [head, "x=1"];
    assert head + "" == head && "" + head == head;
    assert chunks[1..] == ["x=1"] && Concat(["x=1"]) == "x=1" + "" == "x=1";
    assert Concat(chunks) == head + "x=1";
    var posted := Feed(NEW_CONNECTION, head);
    assert posted == Connection(Awaiting(""), "", [post], 0);
    assert posted.buf + "x=1" == "x=1" && FindCrlf("x=1").None?;
    RunTwo(NEW_CONNECTION, head, "x=1");
  }

  lemma RunTwo(c: Connection, one: string, two: string)
    requires Resting(c.ctx)
    ensures Run(c, [one, two]) == Feed(Feed(c, one), two)
  {
    assert [one, two][1..] == [two] && [two][1..] == [];
    var d := Feed(c, one);
    assert Run(d, [two]) == Run(Feed(d, two), []);
  }

  /** The body that the connection's last POST left behind. */
  function PostBody(ds: seq<Request>): string {
    if ds == [] then ""
    else if ds[|ds| - 1].verb == Post then ds[|ds| - 1].body
    else PostBody(ds[..|ds| - 1])
  }

  predicate BodiesLeft(c: Connection) {
    && c.ctx.req.body == PostBody(c.dispatched)
    && forall i | 0 <= i < |c.dispatched| && c.dispatched[i].verb != Post ::
         c.dispatched[i].body == PostBody(c.dispatched[..i])
  }

  lemma {:induction false} BodyKept(c: Context, buf: string)
    requires Resting(c)
    ensures var o := Parse(c, buf); (o.ctx.state == GotAll && o.ctx.req.verb == Post) || o.ctx.req.body == c.req.body
    decreases |buf|
  {
    var t := Turn(c, buf);
    if t.more && t.ctx.state != ExpectBody {
      BodyKept(t.ctx, t.rest);
    }
  }

  lemma FeedBodies(c: Connection, chunk: string)
    requires Resting(c.ctx) && BodiesLeft(c)
    ensures BodiesLeft(Feed(c, chunk))
  {
    BodyKept(c.ctx, c.buf + chunk);
    var d := Feed(c, chunk);
    assert d.dispatched != c.dispatched ==> d.dispatched[..|c.dispatched|] == c.dispatched;
    forall i | 0 <= i < |d.dispatched| ensures i <= |c.dispatched| && d.dispatched[..i] == c.dispatched[..i] {
    }
  }

  /** A request other than a POST is dispatched with the body of the last POST before it. */
  lemma {:induction false} RunBodies(c: Connection, chunks: seq<string>)
    requires Resting(c.ctx) && BodiesLeft(c)
    ensures BodiesLeft(Run(c, chunks))
    decreases |chunks|
  {
    if chunks != [] {
      FeedBodies(c, chunks[0]);
      RunBodies(Feed(c, chunks[0]), chunks[1..]);
    }
  }

  /** No request other than a POST comes right behind a POST that had a body. */
  predicate NoneBehindBody(ds: seq<Request>) {
    forall i | 0 <= i < |ds| - 1 && ds[i].verb == Post && ds[i + 1].verb != Post :: ds[i].body == ""
  }

  lemma {:induction false} NoBodyLeft(ds: seq<Request>, i: nat)
    requires NoneBehindBody(ds) && i < |ds| && ds[i].verb != Post
    ensures PostBody(ds[..i]) == ""
  {
    if i > 0 {
      assert ds[..i][..i - 1] == ds[..i - 1];
      if ds[i - 1].verb != Post {
        NoBodyLeft(ds, i - 1);
      }
    }
  }

  /** Over any run: every request but a POST is dispatched with an empty body, as it was sent, if and only if
      none comes right behind a POST that had a body. */
  lemma BodiesExactly(chunks: seq<string>)
    ensures var ds := Run(NEW_CONNECTION, chunks).dispatched;
      (forall i | 0 <= i < |ds| && ds[i].verb != Post :: ds[i].body == "") <==> NoneBehindBody(ds)
  {
    RunBodies(NEW_CONNECTION, chunks);
    var ds := Run(NEW_CONNECTION, chunks).dispatched;
    if NoneBehindBody(ds) {
      forall i | 0 <= i < |ds| && ds[i].verb != Post ensures ds[i].body == "" {
        NoBodyLeft(ds, i);
      }
    }
    forall i | 0 <= i < |ds| - 1 && ds[i].verb == Post && ds[i + 1].verb != Post ensures ds[i + 1].body == ds[i].body {
      assert ds[..i + 1][i] == ds[i];
    }
  }

  lemma FeedDone(c: Connection, chunk: string, req: Request)
    requires Resting(c.ctx) && c.buf == "" && Parse(c.ctx, chunk) == Outcome(true, Context(GotAll, req), "")
    ensures Feed(c, chunk) == Connection(Awaiting(req.body), "", c.dispatched + [req], c.rejected)
  {
    assert "" + chunk == chunk;
  }

  /** A message as a client sends it: request line, headers, the line that ends them, and the body. */
  datatype Sent = Sent(first: string, lines: seq<string>, end: string, body: string)

  function Verb(m: Sent): Method {
    match MatchRequestLine(m.first) case Some(parts) => MethodOf(parts.0) case None => Invalid
  }

  /** Only a POST has a body. */
  ghost predicate WellSent(m: Sent) {
    && IsRequestLine(m.first) && (forall l | l in m.lines :: IsHeader(l)) && EndsHeaders(m.end)
    && (Verb(m) != Post ==> m.body == "")
  }

  function Text(m: Sent): string {
    m.first + CRLF + (Wire(m.lines) + (m.end + CRLF + m.body))
  }

  function Texts(msgs: seq<Sent>): seq<string> {
    seq(|msgs|, i requires 0 <= i < |msgs| => Text(msgs[i]))
  }

  /** The request is the message's: its method, and the body if it is a POST. */
  predicate Carries(req: Request, m: Sent) {
    req.verb == Verb(m) && (Verb(m) == Post ==> req.body == m.body)
  }

  predicate AllCarry(ds: seq<Request>, from: nat, msgs: seq<Sent>) {
    |ds| == from + |msgs| && forall i | 0 <= i < |msgs| :: Carries(ds[from + i], msgs[i])
  }

  lemma CarryCons(ds: seq<Request>, from: nat, msgs: seq<Sent>)
    requires msgs != [] && from < |ds| && Carries(ds[from], msgs[0]) && AllCarry(ds, from + 1, msgs[1..])
    ensures AllCarry(ds, from, msgs)
  {
    forall i | 0 < i < |msgs| ensures Carries(ds[from + i], msgs[i]) {
      assert msgs[i] == msgs[1..][i - 1] && ds[from + i] == ds[from + 1 + (i - 1)];
    }
  }

  lemma SentRead(left: string, m: Sent) returns (req: Request)
    requires WellSent(m)
    ensures Parse(Awaiting(left), Text(m)) == Outcome(true, Context(GotAll, req), "") && Carries(req, m)
  {
    assert Message(Text(m), m.first, m.lines, m.end, m.body);
    MessageRead(EMPTY_REQUEST.(body := left), Text(m), m.first, m.lines, m.end, m.body);
    req := Parse(Awaiting(left), Text(m)).ctx.req;
  }

  lemma FeedSent(c: Connection, m: Sent) returns (d: Connection)
    requires c.ctx == Awaiting(c.ctx.req.body) && c.buf == "" && WellSent(m)
    ensures Resting(c.ctx) && d == Feed(c, Text(m)) && d.ctx == Awaiting(d.ctx.req.body) && d.buf == ""
    ensures |d.dispatched| == |c.dispatched| + 1 && Carries(d.dispatched[|c.dispatched|], m)
  {
    var req := SentRead(c.ctx.req.body, m);
    FeedDone(c, Text(m), req);
    d := Feed(c, Text(m));
  }

  lemma {:induction false} RunSent(c: Connection, msgs: seq<Sent>)
    requires c.ctx == Awaiting(c.ctx.req.body) && c.buf == "" && forall m | m in msgs :: WellSent(m)
    ensures AllCarry(Run(c, Texts(msgs)).dispatched, |c.dispatched|, msgs)
    decreases |msgs|
  {
    if msgs != [] {
      assert msgs[0] in msgs && Texts(msgs)[1..] == Texts(msgs[1..]);
      var d := FeedSent(c, msgs[0]);
      RunSent(d, msgs[1..]);
      DispatchedGrows(d, Texts(msgs[1..]));
      CarryCons(Run(d, Texts(msgs[1..])).dispatched, |c.dispatched|, msgs);
    }
  }

  /** Some message that is no POST is sent right behind a POST with a body. */
  predicate SentBehindBody(msgs: seq<Sent>) {
    exists i :: 0 <= i < |msgs| - 1 && Verb(msgs[i]) == Post && Verb(msgs[i + 1]) != Post && msgs[i].body != ""
  }

  /** For every sequence of messages, each in a read of its own: all are dispatched, and every one with the body
      it was sent with, if and only if none that is no POST was sent right behind a POST with a body. */
  lemma SentExactly(msgs: seq<Sent>)
    requires forall m | m in msgs :: WellSent(m)
    ensures var ds := Run(NEW_CONNECTION, Texts(msgs)).dispatched;
      |ds| == |msgs| && ((forall i | 0 <= i < |ds| :: ds[i].body == msgs[i].body) <==> !SentBehindBody(msgs))
  {
    RunSent(NEW_CONNECTION, msgs);
    BodiesExactly(Texts(msgs));
    var ds := Run(NEW_CONNECTION, Texts(msgs)).dispatched;
    CarriedAt(ds, msgs);
    SameBodies(ds, msgs);
    SameBehind(ds, msgs);
  }

  lemma CarriedAt(ds: seq<Request>, msgs: seq<Sent>)
    requires AllCarry(ds, 0, msgs) && forall m | m in msgs :: WellSent(m)
    ensures forall i | 0 <= i < |ds| :: Carries(ds[i], msgs[i]) && (Verb(msgs[i]) != Post ==> msgs[i].body == "")
  {
    forall i | 0 <= i < |ds| ensures Carries(ds[i], msgs[i]) && WellSent(msgs[i]) {
      assert ds[0 + i] == ds[i] && msgs[i] in msgs;
    }
  }

  lemma SameBodies(ds: seq<Request>, msgs: seq<Sent>)
    requires |ds| == |msgs|
    requires forall i | 0 <= i < |ds| :: Carries(ds[i], msgs[i]) && (Verb(msgs[i]) != Post ==> msgs[i].body == "")
    ensures (forall i | 0 <= i < |ds| :: ds[i].body == msgs[i].body)
       <==> (forall i | 0 <= i < |ds| && ds[i].verb != Post :: ds[i].body == "")
  {
  }

  lemma SameBehind(ds: seq<Request>, msgs: seq<Sent>)
    requires |ds| == |msgs| && forall i | 0 <= i < |ds| :: Carries(ds[i], msgs[i])
    ensures NoneBehindBody(ds) <==> !SentBehindBody(msgs)
  {
    if !NoneBehindBody(ds) {
      var i :| 0 <= i < |ds| - 1 && ds[i].verb == Post && ds[i + 1].verb != Post && ds[i].body != "";
      assert Carries(ds[i], msgs[i]) && Carries(ds[i + 1], msgs[i + 1]);
    }
    if SentBehindBody(msgs) {
      var i :| 0 <= i < |msgs| - 1 && Verb(msgs[i]) == Post && Verb(msgs[i + 1]) != Post && msgs[i].body != "";
      assert Carries(ds[i], msgs[i]) && Carries(ds[i + 1], msgs[i + 1]);
    }
  }

  /** Any request sent without a body behind a POST is dispatched with the body of that POST. */
  lemma LeftBody(post: string, other: string, p: string, v: string, body: string)
    requires MethodOf(post) == Post && MethodOf(other) != Post
    requires ' ' !in post && ' ' !in other && ' ' !in p && ' ' !in v
    requires NoCrlf(post + " " + p + " HTTP/" + v) && NoCrlf(other + " " + p + " HTTP/" + v)
    ensures Run(NEW_CONNECTION, [BareHead(post, p, v) + body, BareHead(other, p, v)]).dispatched ==
      [Request(Post, VersionOf(v), p, "", map[], body), Request(MethodOf(other), VersionOf(v), p, "", map[], body)]
  {
    var one, two := BareHead(post, p, v) + body, BareHead(other, p, v);
    BareHeadRead(post, p, v, "", body);
    BareHeadRead(other, p, v, body, "");
    assert two + "" == two;
    RunTwo(NEW_CONNECTION, one, two);
    FeedDone(NEW_CONNECTION, one, Request(Post, VersionOf(v), p, "", map[], body));
    FeedDone(Feed(NEW_CONNECTION, one), two, Request(MethodOf(other), VersionOf(v), p, "", map[], body));
  }

  /** So a GET can arrive with a body that it was not sent with. */
  lemma LeftBodyExample()
    ensures var chunks := [BareHead("POST", "/", "1.1") + "x=1", BareHead("GET", "/", "1.1")];
      Run(NEW_CONNECTION, chunks).dispatched
        == [Request(Post, Http11, "/", "", map[], "x=1"), Request(Get, Http11, "/", "", map[], "x=1")]
  {
    LeftBody("POST", "GET", "/", "1.1", "x=1");
  }

  /** A read is answered with 400 exactly when the parser waits for a request line and the first whole line of
      the unread bytes is none. */
  lemma RefusesExactly(c: Connection, chunk: string)
    requires Resting(c.ctx)
    ensures Feed(c, chunk).rejected
         == c.rejected + if c.ctx.state == ExpectRequestLine && BadLineFirst(c.buf + chunk) then 1 else 0
  {
    RefusedExactly(c.ctx, c.buf + chunk);
  }

  /** Once a request line is rejected, every later read is answered with 400 and nothing is dispatched. */
  lemma {:induction false} RejectedForever(c: Connection, chunk: string, chunks: seq<string>)
    requires Resting(c.ctx) && Feed(c, chunk).rejected > c.rejected
    ensures var d := Run(Feed(c, chunk), chunks);
      d.dispatched == c.dispatched && d.rejected == c.rejected + 1 + |chunks|
    decreases |chunks|
  {
    if chunks != [] {
      var next := Feed(c, chunk);
      RejectionIsFinal(c.ctx, c.buf + chunk, chunks[0]);
      RejectedForever(next, chunks[0], chunks[1..]);
    }
  }

  /** A read event: the result of readv, the bytes it delivered, the free part of the buffer, and what the
      memory behind the bytes spilled holds. */
  datatype Reading = Reading(n: int, delivered: string, free: nat, residue: string)

  predicate Possible(r: Reading) {
    && ((r.n == -1 && r.delivered == "") || r.n == |r.delivered| <= r.free + 1024)
    && (r.n > r.free ==> |r.residue| == r.free)
  }

  /** What a read puts into the buffer. */
  function Entered(r: Reading): string {
    r.delivered + if r.n <= r.free then "" else r.residue
  }

  /** What a read makes of a connection: nothing at the end of the file; a failed read takes the last byte
      away, or, when there is none, leaves cursors that are out of order. */
  function Receive(c: Connection, r: Reading): (d: Option<Connection>)
    requires Resting(c.ctx)
    ensures d.Some? ==> Resting(d.value.ctx)
  {
    if r.n > 0 then Some(Feed(c, Entered(r)))
    else if r.n == 0 then Some(c)
    else if c.buf == "" then None
    else Some(c.(buf := c.buf[..|c.buf| - 1]))
  }

  lemma FeedLater(c: Connection, chunk: string)
    requires Resting(c.ctx)
    ensures Feed(c.(buf := c.buf + chunk), "") == Feed(c, chunk)
  {
    assert c.buf + chunk + "" == c.buf + chunk;
  }

  class HttpConnection {
    const context: HttpContext
    const inbuffer: Buffer
    var dispatched: seq<Request>
    var rejected: nat

    ghost predicate Valid()
      reads this, context, inbuffer, inbuffer.buffer
    {
      inbuffer.Valid() && (context.state == ExpectRequestLine || context.state == ExpectHeaders)
    }

    ghost function View(): (c: Connection)
      requires Valid()
      reads this, context, context.request, inbuffer, inbuffer.buffer
      ensures Resting(c.ctx)
    {
      Connection(context.View(), inbuffer.Contents(), dispatched, rejected)
    }

    constructor (now: int, len: nat)
      ensures Valid() && View() == NEW_CONNECTION
      ensures fresh(context) && fresh(context.request) && fresh(inbuffer) && fresh(inbuffer.buffer)
    {
      context := new HttpContext(now);
      inbuffer := new Buffer(len);
      dispatched, rejected := [], 0;
    }

    /** Parses what the buffer holds; never leaves the parser in GotAll, where its loop would not end. */
    method OnMessage(t: int)
      requires Valid()
      modifies this, context, context.request, inbuffer`readIndex, inbuffer`writeIndex
      ensures Valid() && View() == Feed(old(View()), "")
    {
      assert inbuffer.Contents() + "" == inbuffer.Contents();
      var ok := context.ParseRequest(inbuffer, t);
      if !ok {
        rejected := rejected + 1;
      }
      if context.state == GotAll {
        OnRequest();
        context.Reset(t);
      }
    }

    method OnRequest()
      modifies `dispatched
      ensures dispatched == old(dispatched) + [context.request.View()]
    {
      var r := context.request;
      dispatched := dispatched + [Request(r.verb, r.version, r.path, r.query, r.headers, r.body)];
    }

    /** A read event with result `n`. What is parsed is what `Buffer.Read` put into the buffer. */
    method HandleRead(n: int, delivered: string, residue: string, t: int)
      requires Valid() && Possible(Reading(n, delivered, inbuffer.WriteSize(), residue))
      requires n > inbuffer.WriteSize() ==>
                 forall j | 0 <= j < |residue| && n - inbuffer.WriteSize() + j < 1024 :: residue[j] == '\0'
      modifies this, context, context.request, inbuffer, inbuffer.buffer
      ensures var d := Receive(old(View()), Reading(n, delivered, old(inbuffer.WriteSize()), residue));
        (Valid() <==> d.Some?) && (d.Some? ==> View() == d.value)
    {
      ghost var r, before := Reading(n, delivered, inbuffer.WriteSize(), residue), View();
      ReadIn(n, delivered, residue);
      if n > 0 {
        FeedLater(before, Entered(r));
        OnMessage(t);
      } else if n == 0 {
        assert before.buf + Entered(r) == before.buf;
      }
    }

    method ReadIn(n: int, delivered: string, residue: string)
      requires Valid() && Possible(Reading(n, delivered, inbuffer.WriteSize(), residue))
      requires n > inbuffer.WriteSize() ==>
                 forall j | 0 <= j < |residue| && n - inbuffer.WriteSize() + j < 1024 :: residue[j] == '\0'
      modifies inbuffer, inbuffer.buffer
      ensures var r := Reading(n, delivered, old(inbuffer.WriteSize()), residue);
        n >= 0 ==> Valid() && View() == old(View()).(buf := old(View()).buf + Entered(r))
      ensures n == -1 ==> (Valid() <==> old(View()).buf != "")
      ensures n == -1 && Valid() ==> View() == old(View()).(buf := old(View()).buf[..|old(View()).buf| - 1])
    {
      ghost var buf, r := inbuffer.Contents(), Reading(n, delivered, inbuffer.WriteSize(), residue);
      assert buf + Entered(r) == buf + delivered + if n <= r.free then "" else residue;
      inbuffer.Read(n, delivered, residue);
    }
  }
}
