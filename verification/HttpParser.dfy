/** muduo_se/net/HttpContext.{h,cc}: the resumable request parser. */
module HttpParsing {
  import opened Bytes
  import opened GrowableBuffer
  import opened HttpRequests

  datatype ParseState = ExpectRequestLine | ExpectHeaders | ExpectBody | GotAll

  datatype Context = Context(state: ParseState, req: Request)

  /** What one call of the parser answers, where it stops and which bytes it leaves. */
  datatype Outcome = Outcome(ok: bool, ctx: Context, rest: string)

  function WithRequestLine(req: Request, parts: (string, string, string)): Request {
    req.(verb := MethodOf(parts.0), version := VersionOf(parts.2), path := parts.1)
  }

  function WithHeader(req: Request, pair: (string, string)): Request {
    req.(headers := req.headers[pair.0 := pair.1])
  }

  /** One turn of the loop; `more` is the loop's `hasMore`. */
  datatype Turned = Turned(ok: bool, more: bool, ctx: Context, rest: string)

  function RequestLineTurned(c: Context, buf: string): Turned {
    match FindCrlf(buf)
    case None => Turned(true, false, c, buf)
    case Some(k) =>
      match MatchRequestLine(buf[..k])
      case None => Turned(false, false, c, buf)
      case Some(parts) => Turned(true, true, Context(ExpectHeaders, WithRequestLine(c.req, parts)), buf[k + 2..])
  }

  function HeaderTurned(c: Context, buf: string): Turned {
    match FindCrlf(buf)
    case None => Turned(true, false, c, buf)
    case Some(k) =>
      match MatchHeader(buf[..k])
      case Some(pair) => Turned(true, true, c.(req := WithHeader(c.req, pair)), buf[k + 2..])
      case None =>
        if c.req.verb == Post then Turned(true, true, Context(ExpectBody, c.req), buf[k + 2..])
        else Turned(true, false, Context(GotAll, c.req), buf[k + 2..])
  }

  function Turn(c: Context, buf: string): (t: Turned)
    requires c.state != GotAll
    ensures t.more ==> t.ok && t.ctx.state != GotAll && t.ctx.state != ExpectRequestLine && |t.rest| < |buf|
    ensures !t.more ==> t.ctx.state != ExpectBody
    ensures !t.ok ==> t == Turned(false, false, c, buf) && c.state == ExpectRequestLine
    ensures t.ctx.state == GotAll && c.state != ExpectBody ==> |t.rest| < |buf|
  {
    match c.state
    case ExpectRequestLine => RequestLineTurned(c, buf)
    case ExpectHeaders => HeaderTurned(c, buf)
    case ExpectBody => Turned(true, false, Context(GotAll, c.req.(body := buf)), "")
  }

  /** The parser as a function of the bytes it is given. It never stops in ExpectBody, and a completed
      request has used up at least its last line end. */
  function Parse(c: Context, buf: string): (o: Outcome)
    requires c.state != GotAll
    ensures o.ctx.state != ExpectBody
    ensures o.ctx.state == GotAll && c.state != ExpectBody ==> |o.rest| < |buf|
    ensures !o.ok ==> c.state == ExpectRequestLine && o == Outcome(false, c, buf)
    ensures |o.rest| <= |buf|
    decreases |buf|
  {
    var t := Turn(c, buf);
    if t.more then Parse(t.ctx, t.rest) else Outcome(t.ok, t.ctx, t.rest)
  }

  /** `reset` swaps in an empty request, but `swap` leaves the body where it is. */
  function AfterReset(c: Context): Context {
    Context(ExpectRequestLine, EMPTY_REQUEST.(body := c.req.body))
  }

  class HttpContext {
    var state: ParseState
    const request: HttpRequest

    constructor (now: int)
      ensures View() == Context(ExpectRequestLine, EMPTY_REQUEST) && fresh(request)
    {
      state := ExpectRequestLine;
      request := new HttpRequest(now);
    }

    ghost function View(): Context
      reads this, request
    {
      Context(state, request.View())
    }

    method ProcessRequestLine(line: string) returns (ok: bool)
      modifies request
      ensures ok == MatchRequestLine(line).Some?
      ensures request.View() ==
              if ok then WithRequestLine(old(request.View()), MatchRequestLine(line).value) else old(request.View())
      ensures request.receiveTime == old(request.receiveTime)
    {
      match MatchRequestLine(line) {
        case Some(parts) =>
          var _ := request.SetMethod(parts.0);
          request.SetVersion(parts.2);
          request.SetPath(parts.1);
          ok := true;
        case None =>
          ok := false;
      }
    }

    /** The first line in the buffer, not yet consumed. */
    method PeekLine(buf: Buffer) returns (line: Option<string>)
      requires buf.Valid()
      ensures line == match FindCrlf(buf.Contents()) case Some(k) => Some(buf.Contents()[..k]) case None => None
    {
      var crlf := buf.FindCRLF();
      line := None;
      if crlf.Some? {
        var s := buf.Peek(crlf.value);
        line := Some(s);
      }
    }

    method Advance(t: int)
      modifies `state, request`receiveTime
      ensures View() == Context(ExpectHeaders, old(request.View())) && request.receiveTime == t
    {
      request.SetReceiveTime(t);
      state := ExpectHeaders;
    }

    method RequestLineTurn(buf: Buffer, t: int) returns (ok: bool, more: bool)
      requires buf.Valid() && state == ExpectRequestLine
      modifies this, request, buf`readIndex, buf`writeIndex
      ensures buf.Valid()
      ensures Turned(ok, more, View(), buf.Contents()) == RequestLineTurned(old(View()), old(buf.Contents()))
      ensures request.receiveTime == if state == ExpectHeaders then t else old(request.receiveTime)
    {
      ok, more := true, false;
      var line := PeekLine(buf);
      if line.Some? {
        ok := ProcessRequestLine(line.value);
        if ok {
          Advance(t);
          buf.Retrieve(|line.value| + 2);
          more := true;
        }
      }
    }

    method HeaderTurn(buf: Buffer) returns (more: bool)
      requires buf.Valid() && state == ExpectHeaders
      modifies this, request, buf`readIndex, buf`writeIndex
      ensures buf.Valid()
      ensures Turned(true, more, View(), buf.Contents()) == HeaderTurned(old(View()), old(buf.Contents()))
      ensures request.receiveTime == old(request.receiveTime)
    {
      more := false;
      var line := PeekLine(buf);
      if line.Some? {
        more := true;
        var matched := request.AddHeader(line.value);
        if !matched {
          if request.verb == Post {
            state := ExpectBody;
          } else {
            state := GotAll;
            more := false;
          }
        }
        buf.Retrieve(|line.value| + 2);
      }
    }

    method BodyTurn(buf: Buffer)
      requires buf.Valid() && state == ExpectBody
      modifies this, request, buf`readIndex, buf`writeIndex
      ensures buf.Valid()
      ensures Turned(true, false, View(), buf.Contents()) == Turn(old(View()), old(buf.Contents()))
      ensures request.receiveTime == old(request.receiveTime)
    {
      var bytes := buf.Peek(buf.ReadSize());
      request.AddBody(bytes);
      state := GotAll;
      buf.Retrieve(buf.ReadSize());
    }

    /** One turn of the loop leaves what is still to be parsed, or the answer. */
    method OneTurn(buf: Buffer, t: int) returns (ok: bool, more: bool)
      requires buf.Valid() && state != GotAll
      modifies this, request, buf`readIndex, buf`writeIndex
      ensures buf.Valid()
      ensures more ==> ok && state != GotAll && buf.ReadSize() < old(buf.ReadSize())
      ensures state == ExpectRequestLine ==> old(state) == ExpectRequestLine
      ensures Parse(old(View()), old(buf.Contents()))
           == if more then Parse(View(), buf.Contents()) else Outcome(ok, View(), buf.Contents())
      ensures request.receiveTime ==
              if old(state) == ExpectRequestLine && state != ExpectRequestLine then t else old(request.receiveTime)
    {
      ghost var turned := Turn(View(), buf.Contents());
      ok := true;
      if state == ExpectRequestLine {
        ok, more := RequestLineTurn(buf, t);
      } else if state == ExpectHeaders {
        more := HeaderTurn(buf);
      } else {
        BodyTurn(buf);
        more := false;
      }
      assert Turned(ok, more, View(), buf.Contents()) == turned;
    }

    /** The state-machine loop computes `Parse` and consumes the buffer in place. */
    method ParseRequest(buf: Buffer, t: int) returns (ok: bool)
      requires buf.Valid() && state != GotAll
      modifies this, request, buf`readIndex, buf`writeIndex
      ensures buf.Valid()
      ensures Outcome(ok, View(), buf.Contents()) == Parse(old(View()), old(buf.Contents()))
      ensures request.receiveTime ==
              if old(state) == ExpectRequestLine && state != ExpectRequestLine then t else old(request.receiveTime)
    {
      ghost var answer, first := Parse(View(), buf.Contents()), state == ExpectRequestLine;
      ghost var stamp := request.receiveTime;
      ok := true;
      var hasMore := true;
      while hasMore
        invariant buf.Valid()
        invariant hasMore ==> ok && state != GotAll
        invariant answer == if hasMore then Parse(View(), buf.Contents()) else Outcome(ok, View(), buf.Contents())
        invariant state == ExpectRequestLine ==> first
        invariant request.receiveTime == if first && state != ExpectRequestLine then t else stamp
        decreases hasMore, buf.ReadSize()
      {
        ok, hasMore := OneTurn(buf, t);
      }
    }

    /** A reset context parses like a new one, but for the body that an earlier request left behind. */
    method Reset(now: int)
      modifies this, request
      ensures View() == AfterReset(old(View())) && request.receiveTime == now
      ensures View().req == EMPTY_REQUEST <==> old(View()).req.body == ""
    {
      state := ExpectRequestLine;
      var dummy := new HttpRequest(now);
      request.Swap(dummy);
    }
  }
}
