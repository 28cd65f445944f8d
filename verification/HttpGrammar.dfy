/** What the parser accepts, as a grammar over whole byte strings, and how it behaves on cut input. */
module HttpGrammar {
  import opened Bytes
  import opened HttpRequests
  import opened HttpParsing

  /** Lines on the wire, each with its line end. */
  function Wire(lines: seq<string>): string {
    if lines == [] then "" else lines[0] + CRLF + Wire(lines[1..])
  }

  lemma WireCons(line: string, lines: seq<string>, tail: string)
    ensures Wire([line] + lines) + tail == line + CRLF + (Wire(lines) + tail)
  {
  }

  ghost predicate IsHeader(line: string) {
    NoCrlf(line) && exists k, v :: HeaderShape(line, k, v)
  }

  /** Any line that is not a header ends the header block. */
  ghost predicate EndsHeaders(line: string) {
    NoCrlf(line) && !IsHeader(line)
  }

  ghost predicate IsRequestLine(line: string) {
    NoCrlf(line) && exists m, p, v :: RequestLineShape(line, m, p, v)
  }

  lemma HeaderMatches(line: string)
    requires NoCrlf(line)
    ensures IsHeader(line) <==> MatchHeader(line).Some?
  {
    if MatchHeader(line).Some? {
      var (k, v) := MatchHeader(line).value;
      HeaderExact(line, k, v);
    }
    if IsHeader(line) {
      var k, v :| HeaderShape(line, k, v);
      HeaderExact(line, k, v);
    }
  }

  lemma RequestLineMatches(line: string)
    requires NoCrlf(line)
    ensures IsRequestLine(line) <==> MatchRequestLine(line).Some?
  {
    if MatchRequestLine(line).Some? {
      var (m, p, v) := MatchRequestLine(line).value;
      RequestLineExact(line, m, p, v);
    }
    if IsRequestLine(line) {
      var m, p, v :| RequestLineShape(line, m, p, v);
      RequestLineExact(line, m, p, v);
    }
  }

  /** The headers that a block of header lines stands for; a repeated key keeps its last value. */
  function Headers(base: map<string, string>, lines: seq<string>): map<string, string>
    decreases |lines|
  {
    if lines == [] then base
    else match MatchHeader(lines[0])
      case Some(pair) => Headers(base[pair.0 := pair.1], lines[1..])
      case None => Headers(base, lines[1..])
  }

  /** How a header block ends: a POST takes all the bytes behind it, any other request takes none. */
  function Finish(req: Request, rest: string): Outcome {
    if req.verb == Post then Outcome(true, Context(GotAll, req.(body := rest)), "")
    else Outcome(true, Context(GotAll, req), rest)
  }

  /** Every header block is read as what it stands for. */
  lemma {:induction false} HeaderBlockRead(req: Request, lines: seq<string>, end: string, rest: string)
    requires forall l | l in lines :: IsHeader(l)
    requires EndsHeaders(end)
    ensures Parse(Context(ExpectHeaders, req), Wire(lines) + (end + CRLF + rest))
         == Finish(req.(headers := Headers(req.headers, lines)), rest)
    decreases |lines|
  {
    var buf := Wire(lines) + (end + CRLF + rest);
    if lines == [] {
      assert buf == end + CRLF + rest;
      FindCrlfAfterLine(end, rest);
      HeaderMatches(end);
      assert req.(headers := req.headers) == req;
    } else {
      var more := Wire(lines[1..]) + (end + CRLF + rest);
      assert buf == lines[0] + CRLF + more;
      assert lines[0] in lines;
      FindCrlfAfterLine(lines[0], more);
      HeaderMatches(lines[0]);
      var next := WithHeader(req, MatchHeader(lines[0]).value);
      HeaderBlockRead(next, lines[1..], end, rest);
      assert next.(headers := Headers(next.headers, lines[1..])) == req.(headers := Headers(req.headers, lines));
    }
  }

  /** A parse that completes from the headers state has read such a block, and nothing else. */
  lemma {:induction false} HeaderBlockWritten(req: Request, buf: string) returns (lines: seq<string>, end: string, rest: string)
    requires Parse(Context(ExpectHeaders, req), buf).ctx.state == GotAll
    ensures buf == Wire(lines) + (end + CRLF + rest)
    ensures EndsHeaders(end) && forall l | l in lines :: IsHeader(l)
    ensures Parse(Context(ExpectHeaders, req), buf) == Finish(req.(headers := Headers(req.headers, lines)), rest)
    decreases |buf|
  {
    var k := FindCrlf(buf).value;
    var line, after := buf[..k], buf[k + 2..];
    FirstLine(buf);
    HeaderMatches(line);
    match MatchHeader(line) {
      case Some(pair) =>
        var next := WithHeader(req, pair);
        var tail;
        tail, end, rest := HeaderBlockWritten(next, after);
        lines := [line] + tail;
        WireCons(line, tail, end + CRLF + rest);
        assert lines[1..] == tail;
        assert next.(headers := Headers(next.headers, tail)) == req.(headers := Headers(req.headers, lines));
      case None =>
        lines, end, rest := [], line, after;
        assert buf == Wire(lines) + (end + CRLF + rest);
        assert req.(headers := req.headers) == req;
    }
  }

  /** A whole message: a request line, header lines, and a line that ends them. */
  ghost predicate Message(buf: string, first: string, lines: seq<string>, end: string, rest: string) {
    && IsRequestLine(first) && (forall l | l in lines :: IsHeader(l)) && EndsHeaders(end)
    && buf == first + CRLF + (Wire(lines) + (end + CRLF + rest))
  }

  function Decode(req: Request, first: string, lines: seq<string>): Request
    requires MatchRequestLine(first).Some?
  {
    var r := WithRequestLine(req, MatchRequestLine(first).value);
    r.(headers := Headers(r.headers, lines))
  }

  lemma MessageRead(req: Request, buf: string, first: string, lines: seq<string>, end: string, rest: string)
    requires Message(buf, first, lines, end, rest)
    ensures MatchRequestLine(first).Some?
    ensures Parse(Context(ExpectRequestLine, req), buf) == Finish(Decode(req, first, lines), rest)
  {
    var more := Wire(lines) + (end + CRLF + rest);
    assert buf == first + CRLF + more;
    FindCrlfAfterLine(first, more);
    RequestLineMatches(first);
    HeaderBlockRead(WithRequestLine(req, MatchRequestLine(first).value), lines, end, rest);
  }

  /** The request line's three parts become method, version and path; nothing else but the headers changes. */
  lemma FieldsRead(req: Request, buf: string, m: string, p: string, v: string, lines: seq<string>, end: string, rest: string)
    requires Message(buf, m + " " + p + " HTTP/" + v, lines, end, rest) && ' ' !in m && ' ' !in p && ' ' !in v
    ensures var o := Parse(Context(ExpectRequestLine, req), buf);
      && o.ok && o.ctx.state == GotAll
      && o.ctx.req.verb == MethodOf(m) && o.ctx.req.version == VersionOf(v) && o.ctx.req.path == p
      && o.ctx.req.query == req.query && o.ctx.req.headers == Headers(req.headers, lines)
      && o.ctx.req.body == (if MethodOf(m) == Post then rest else req.body)
      && o.rest == if MethodOf(m) == Post then "" else rest
  {
    RequestLineRead(m, p, v);
    MessageRead(req, buf, m + " " + p + " HTTP/" + v, lines, end, rest);
  }

  lemma MessageWritten(req: Request, buf: string) returns (first: string, lines: seq<string>, end: string, rest: string)
    requires Parse(Context(ExpectRequestLine, req), buf).ctx.state == GotAll
    ensures Message(buf, first, lines, end, rest)
  {
    var k := FindCrlf(buf).value;
    first := buf[..k];
    FirstLine(buf);
    RequestLineMatches(first);
    lines, end, rest := HeaderBlockWritten(WithRequestLine(req, MatchRequestLine(first).value), buf[k + 2..]);
  }

  /** The parser completes on exactly the buffers that start with a message. */
  lemma CompletesExactly(req: Request, buf: string)
    ensures Parse(Context(ExpectRequestLine, req), buf).ctx.state == GotAll
       <==> exists first, lines, end, rest :: Message(buf, first, lines, end, rest)
  {
    if Parse(Context(ExpectRequestLine, req), buf).ctx.state == GotAll {
      var first, lines, end, rest := MessageWritten(req, buf);
    }
    if exists first, lines, end, rest :: Message(buf, first, lines, end, rest) {
      var first, lines, end, rest :| Message(buf, first, lines, end, rest);
      MessageRead(req, buf, first, lines, end, rest);
    }
  }

  /** The states in which a connection waits for bytes: the body state only ever follows a POST. */
  predicate WellFormed(c: Context) {
    c.state != GotAll && (c.state == ExpectBody ==> c.req.verb == Post)
  }

  /** A turn that found its line end does the same when more bytes follow. */
  lemma TurnExtend(c: Context, a: string, b: string)
    requires c.state == ExpectRequestLine || c.state == ExpectHeaders
    requires FindCrlf(a).Some?
    ensures Turn(c, a + b) == Turn(c, a).(rest := Turn(c, a).rest + b)
  {
    FindCrlfExtend(a, b);
    var k := FindCrlf(a).value;
    assert (a + b)[..k] == a[..k] && (a + b)[k + 2..] == a[k + 2..] + b;
  }

  /** Resuming: stopping short on `a` and going on with `b` is the same as one parse of `a + b`. */
  lemma {:induction false} Resume(c: Context, a: string, b: string)
    requires WellFormed(c)
    requires Parse(c, a).ctx.state != GotAll
    ensures WellFormed(Parse(c, a).ctx)
    ensures Parse(Parse(c, a).ctx, Parse(c, a).rest + b) == Parse(c, a + b)
    decreases |a|
  {
    var t := Turn(c, a);
    if t.more {
      TurnExtend(c, a, b);
      Resume(t.ctx, t.rest, b);
    } else {
      assert t.ctx == c && t.rest == a;
    }
  }

  /** Bytes behind a completed request: they stay in the buffer, unless it is a POST, whose body takes them. */
  lemma {:induction false} Extend(c: Context, a: string, b: string)
    requires WellFormed(c)
    requires Parse(c, a).ctx.state == GotAll
    ensures var o := Parse(c, a);
      Parse(c, a + b) ==
        if o.ctx.req.verb == Post then o.(ctx := o.ctx.(req := o.ctx.req.(body := o.ctx.req.body + b)))
        else o.(rest := o.rest + b)
    ensures Parse(c, a).ctx.req.verb == Post ==> Parse(c, a).rest == ""
    decreases |a|
  {
    var t := Turn(c, a);
    if t.more {
      TurnExtend(c, a, b);
      Extend(t.ctx, t.rest, b);
    } else if c.state != ExpectBody {
      TurnExtend(c, a, b);
    }
  }

  /** The leftover just grows by the later bytes if and only if the request is no POST or there are none. */
  lemma ExtendExactly(c: Context, a: string, b: string)
    requires WellFormed(c) && Parse(c, a).ctx.state == GotAll
    ensures Parse(c, a + b) == Parse(c, a).(rest := Parse(c, a).rest + b)
       <==> Parse(c, a).ctx.req.verb != Post || b == ""
  {
    Extend(c, a, b);
    var o := Parse(c, a);
    if o.ctx.req.verb == Post && b != "" {
      assert |o.ctx.req.body + b| != |o.ctx.req.body|;
    }
    if b == "" {
      assert a + b == a && o.rest + b == o.rest;
    }
  }

  /** The bytes start with a whole line that is no request line. */
  ghost predicate BadLineFirst(buf: string) {
    exists first, rest :: NoCrlf(first) && !IsRequestLine(first) && buf == first + CRLF + rest
  }

  /** The parser refuses exactly when it waits for a request line and the first whole line is none. */
  lemma RefusedExactly(c: Context, buf: string)
    requires c.state != GotAll
    ensures !Parse(c, buf).ok <==> c.state == ExpectRequestLine && BadLineFirst(buf)
  {
    if c.state == ExpectRequestLine {
      if FindCrlf(buf).Some? {
        var k := FindCrlf(buf).value;
        FirstLine(buf);
        RequestLineMatches(buf[..k]);
        assert buf == buf[..k] + CRLF + buf[k + 2..];
      }
      if BadLineFirst(buf) {
        var first, rest :| NoCrlf(first) && !IsRequestLine(first) && buf == first + CRLF + rest;
        FindCrlfAfterLine(first, rest);
        RequestLineMatches(first);
      }
    }
  }

  /** A rejected request line stays rejected whatever follows it. */
  lemma RejectionIsFinal(c: Context, a: string, b: string)
    requires WellFormed(c) && !Parse(c, a).ok
    ensures Parse(c, a + b) == Outcome(false, c, a + b)
  {
    TurnExtend(c, a, b);
  }
}
