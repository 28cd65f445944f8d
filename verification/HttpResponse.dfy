/** muduo_se/net/HttpResponse.{h,cc}: the response printer, read back by the request parser's header loop. */
module HttpResponses {
  import opened Bytes
  import opened GrowableBuffer
  import opened HttpRequests
  import opened HttpParsing
  import opened HttpGrammar

  datatype Response = Response(
    version: int, statusCode: int, statusMessage: string, close: bool, headers: map<string, string>, body: string)

  predicate IsDigit(c: char) { '0' <= c <= '9' }

  function Digits(n: nat): (s: string)
    ensures |s| >= 1 && forall i | 0 <= i < |s| :: IsDigit(s[i])
  {
    if n < 10 then [('0' as int + n) as char] else Digits(n / 10) + Digits(n % 10)
  }

  function Decimal(i: int): string {
    if i < 0 then "-" + Digits(-i) else Digits(i)
  }

  /** snprintf into a 32-byte array: at most 31 bytes survive. */
  function Printf32(s: string): string {
    if |s| <= 31 then s else s[..31]
  }

  function HeaderLine(k: string, v: string): string { k + ": " + v }

  const LENGTH := "Content-Length"
  const CONNECTION := "Connection"

  function LengthLine(r: Response): string { HeaderLine(LENGTH, Digits(|r.body|)) }
  function CloseLine(): string { HeaderLine(CONNECTION, "close") }
  function KeepLine(): string { HeaderLine(CONNECTION, "Keep-Alive") }

  function StatusLine(r: Response): string {
    Printf32("HTTP/1." + Decimal(r.version) + " " + Decimal(r.statusCode) + " ") + r.statusMessage + CRLF
  }

  function Intro(r: Response): string {
    if r.close then CloseLine() + CRLF else Printf32(LengthLine(r) + CRLF) + (KeepLine() + CRLF)
  }

  function Lines(headers: map<string, string>, order: seq<string>): seq<string>
    requires forall k | k in order :: k in headers
  {
    if order == [] then [] else [HeaderLine(order[0], headers[order[0]])] + Lines(headers, order[1..])
  }

  /** The header block: everything between the status line and the body. */
  function Block(r: Response, order: seq<string>): string
    requires forall k | k in order :: k in r.headers
  {
    Intro(r) + (Wire(Lines(r.headers, order)) + CRLF)
  }

  function Printed(r: Response, order: seq<string>): string
    requires forall k | k in order :: k in r.headers
  {
    StatusLine(r) + (Block(r, order) + r.body)
  }

  /** `order` lists the keys as an iteration over the header map yields them. */
  ghost predicate Enumerates(order: seq<string>, headers: map<string, string>) {
    (forall k :: k in order <==> k in headers) && forall i, j | 0 <= i < j < |order| :: order[i] != order[j]
  }

  /** What the reader should end up with: the printer's own entries, overridden by the response's. */
  function Expected(r: Response): map<string, string> {
    (if r.close then map[CONNECTION := "close"]
     else map[LENGTH := Digits(|r.body|), CONNECTION := "Keep-Alive"]) + r.headers
  }

  ghost predicate AllSafe(headers: map<string, string>) {
    forall k | k in headers :: SafeKey(k) && SafeValue(headers[k])
  }

  lemma LineRead(k: string, v: string)
    requires SafeKey(k) && SafeValue(v)
    ensures NoCrlf(HeaderLine(k, v)) && IsHeader(HeaderLine(k, v)) && MatchHeader(HeaderLine(k, v)) == Some((k, v))
  {
    var line := HeaderLine(k, v);
    assert HeaderShape(line, k, v);
    HeaderExact(line, k, v);
    forall j ensures !CrlfAt(line, j) {
      assert 0 <= j && j + 1 < |k| ==> CrlfAt(line, j) == CrlfAt(k, j);
      assert |k| + 1 <= j && j + 1 < |line| ==> line[j + 1] == v[j - |k| - 1];
    }
  }

  lemma {:induction false} LinesRead(base: map<string, string>, headers: map<string, string>, order: seq<string>)
    requires AllSafe(headers)
    requires forall k | k in order :: k in headers
    ensures forall l | l in Lines(headers, order) :: IsHeader(l)
    ensures Headers(base, Lines(headers, order)) == base + map k | k in order :: headers[k]
    decreases |order|
  {
    if order == [] {
      assert base + (map k | k in order :: headers[k]) == base;
    } else {
      var k, later := order[0], order[1..];
      assert k in order;
      LineRead(k, headers[k]);
      LinesRead(base[k := headers[k]], headers, later);
      assert Lines(headers, order)[1..] == Lines(headers, later);
      MapCons(base, headers, order);
    }
  }

  lemma MapCons(base: map<string, string>, headers: map<string, string>, order: seq<string>)
    requires order != [] && forall k | k in order :: k in headers
    ensures base[order[0] := headers[order[0]]] + (map k | k in order[1..] :: headers[k])
         == base + map k | k in order :: headers[k]
  {
  }

  /** The header lines that the reader makes of the intro, when it makes any. */
  function IntroLines(r: Response): seq<string>
    requires r.close || |Digits(|r.body|)| != 14
  {
    if r.close then [CloseLine()]
    else if |Digits(|r.body|)| <= 13 then [LengthLine(r), KeepLine()]
    else [HeaderLine(LENGTH, Digits(|r.body|)[..15] + KeepLine())]
  }

  function IntroMap(r: Response): map<string, string>
    requires r.close || |Digits(|r.body|)| != 14
  {
    if r.close then map[CONNECTION := "close"]
    else if |Digits(|r.body|)| <= 13 then map[LENGTH := Digits(|r.body|), CONNECTION := "Keep-Alive"]
    else map[LENGTH := Digits(|r.body|)[..15] + KeepLine()]
  }

  lemma OneHeader(base: map<string, string>, line: string, k: string, v: string)
    requires MatchHeader(line) == Some((k, v))
    ensures Headers(base, [line]) == base[k := v]
  {
  }

  lemma WireOne(line: string)
    ensures Wire([line]) == line + CRLF
  {
  }

  lemma WireTwo(one: string, two: string)
    ensures Wire([one, two]) == one + CRLF + (two + CRLF)
  {
    assert [one, two][1..] == [two];
    WireOne(two);
  }

  lemma SafeLine(k: string, v: string)
    requires SafeValue(k) && SafeValue(v)
    ensures SafeValue(HeaderLine(k, v))
  {
  }

  lemma KeepLineRead()
    ensures IsHeader(KeepLine()) && MatchHeader(KeepLine()) == Some((CONNECTION, "Keep-Alive")) && SafeValue(KeepLine())
  {
    LineRead(CONNECTION, "Keep-Alive");
    SafeLine(CONNECTION, "Keep-Alive");
  }

  lemma LongLine(d: string)
    requires |d| >= 15
    ensures Printf32(HeaderLine(LENGTH, d) + CRLF) + (KeepLine() + CRLF) == HeaderLine(LENGTH, d[..15] + KeepLine()) + CRLF
  {
  }

  lemma CloseRead(r: Response)
    requires r.close
    ensures Wire(IntroLines(r)) == Intro(r)
    ensures forall l | l in IntroLines(r) :: IsHeader(l)
    ensures Headers(map[], IntroLines(r)) == IntroMap(r)
  {
    var base: map<string, string> := map[];
    LineRead(CONNECTION, "close");
    WireOne(CloseLine());
    OneHeader(base, CloseLine(), CONNECTION, "close");
  }

  lemma ShortLengthRead(r: Response)
    requires !r.close && |Digits(|r.body|)| <= 13
    ensures Wire(IntroLines(r)) == Intro(r)
    ensures forall l | l in IntroLines(r) :: IsHeader(l)
    ensures Headers(map[], IntroLines(r)) == IntroMap(r)
  {
    var base: map<string, string> := map[LENGTH := Digits(|r.body|)];
    LineRead(LENGTH, Digits(|r.body|));
    KeepLineRead();
    WireTwo(LengthLine(r), KeepLine());
    assert [LengthLine(r), KeepLine()][1..] == [KeepLine()];
    OneHeader(base, KeepLine(), CONNECTION, "Keep-Alive");
  }

  lemma LongLengthRead(r: Response)
    requires !r.close && |Digits(|r.body|)| >= 15
    ensures Wire(IntroLines(r)) == Intro(r)
    ensures forall l | l in IntroLines(r) :: IsHeader(l)
    ensures Headers(map[], IntroLines(r)) == IntroMap(r)
  {
    var base: map<string, string> := map[];
    var d := Digits(|r.body|);
    var v := d[..15] + KeepLine();
    assert SafeValue(v) by { KeepLineRead(); }
    LineRead(LENGTH, v);
    assert Intro(r) == HeaderLine(LENGTH, v) + CRLF by { LongLine(d); }
    WireOne(HeaderLine(LENGTH, v));
    OneHeader(base, HeaderLine(LENGTH, v), LENGTH, v);
  }

  /** With any number of digits but 14 the intro is a run of header lines, though perhaps the wrong ones. */
  lemma IntroRead(r: Response)
    requires r.close || |Digits(|r.body|)| != 14
    ensures Wire(IntroLines(r)) == Intro(r)
    ensures forall l | l in IntroLines(r) :: IsHeader(l)
    ensures Headers(map[], IntroLines(r)) == IntroMap(r)
  {
    if r.close {
      CloseRead(r);
    } else if |Digits(|r.body|)| <= 13 {
      ShortLengthRead(r);
    } else {
      LongLengthRead(r);
    }
  }

  lemma {:induction false} WireConcat(a: seq<string>, b: seq<string>)
    ensures Wire(a + b) == Wire(a) + Wire(b)
    decreases |a|
  {
    if a == [] {
      assert a + b == b;
    } else {
      assert (a + b)[1..] == a[1..] + b;
      WireConcat(a[1..], b);
    }
  }

  lemma {:induction false} HeadersConcat(base: map<string, string>, a: seq<string>, b: seq<string>)
    ensures Headers(base, a + b) == Headers(Headers(base, a), b)
    decreases |a|
  {
    if a == [] {
      assert a + b == b;
    } else {
      assert (a + b)[1..] == a[1..] + b;
      var next := match MatchHeader(a[0]) case Some(pair) => base[pair.0 := pair.1] case None => base;
      HeadersConcat(next, a[1..], b);
    }
  }

  lemma EmptyLineEnds()
    ensures EndsHeaders("")
  {
  }

  lemma BlockShape(r: Response, order: seq<string>, intro: seq<string>)
    requires forall k | k in order :: k in r.headers
    requires Wire(intro) == Intro(r)
    ensures Block(r, order) + r.body == Wire(intro + Lines(r.headers, order)) + ("" + CRLF + r.body)
  {
    WireConcat(intro, Lines(r.headers, order));
    var i, w := Intro(r), Wire(Lines(r.headers, order));
    assert i + (w + CRLF) + r.body == (i + w) + ("" + CRLF + r.body);
  }

  /** Safe headers come back, behind whatever the intro was read as. */
  lemma SafeBlockRead(r: Response, order: seq<string>, req: Request)
    requires Enumerates(order, r.headers) && AllSafe(r.headers)
    requires req.verb != Post && req.headers == map[]
    requires r.close || |Digits(|r.body|)| != 14
    ensures Parse(Context(ExpectHeaders, req), Block(r, order) + r.body)
         == Outcome(true, Context(GotAll, req.(headers := IntroMap(r) + r.headers)), r.body)
  {
    var intro, own := IntroLines(r), Lines(r.headers, order);
    IntroRead(r);
    LinesRead(IntroMap(r), r.headers, order);
    assert (map k | k in order :: r.headers[k]) == r.headers;
    HeadersConcat(map[], intro, own);
    BlockShape(r, order, intro);
    EmptyLineEnds();
    HeaderBlockRead(req, intro + own, "", r.body);
  }

  lemma CutAtCr(d: string)
    requires |d| == 14
    ensures Printf32(HeaderLine(LENGTH, d) + CRLF) == HeaderLine(LENGTH, d) + "\r"
  {
    assert (HeaderLine(LENGTH, d) + CRLF)[..31] == HeaderLine(LENGTH, d) + "\r";
  }

  lemma FourteenBlock(r: Response, order: seq<string>)
    requires forall k | k in order :: k in r.headers
    requires !r.close && |Digits(|r.body|)| == 14
    ensures Block(r, order) + r.body
         == Wire([]) + (LengthLine(r) + "\r" + KeepLine() + CRLF + (Wire(Lines(r.headers, order)) + CRLF + r.body))
  {
    CutAtCr(Digits(|r.body|));
    Regroup(LengthLine(r) + "\r", KeepLine(), CRLF, Wire(Lines(r.headers, order)), r.body);
  }

  lemma Regroup(a: string, b: string, c: string, d: string, e: string)
    ensures a + (b + c) + (d + c) + e == "" + (a + b + c + (d + c + e))
  {
  }

  /** With 14 digits the cut takes the LF away: the bare CR makes the first line end the headers. */
  lemma FourteenDigitsRead(r: Response, order: seq<string>, req: Request)
    requires forall k | k in order :: k in r.headers
    requires req.verb != Post && req.headers == map[]
    requires !r.close && |Digits(|r.body|)| == 14
    ensures Parse(Context(ExpectHeaders, req), Block(r, order) + r.body).ctx.req.headers == map[]
  {
    KeepLineRead();
    BareCrEnds(Digits(|r.body|), KeepLine());
    FourteenBlock(r, order);
    HeaderBlockRead(req, [], LengthLine(r) + "\r" + KeepLine(), Wire(Lines(r.headers, order)) + CRLF + r.body);
  }

  lemma BareCrEnds(v: string, tail: string)
    requires SafeValue(v) && SafeValue(tail)
    ensures EndsHeaders(HeaderLine(LENGTH, v) + "\r" + tail)
  {
    var line := HeaderLine(LENGTH, v) + "\r" + tail;
    assert NoCrlf(line) by {
      forall j ensures !CrlfAt(line, j) {
        assert 16 <= j + 1 < 16 + |v| ==> line[j + 1] == v[j - 15];
        assert 17 + |v| <= j + 1 < |line| ==> line[j + 1] == tail[j - 16 - |v|];
      }
    }
    assert line[14] == ':' && forall i | 0 <= i < 14 :: line[i] == LENGTH[i];
    assert IndexOf(line, ':', 0) == Some(14);
    assert line[15..] == " " + line[16..] && line[16..][|v|] == '\r';
    HeaderMatches(line);
  }

  lemma {:induction false} ReadHeadersAreSafe(base: map<string, string>, lines: seq<string>)
    requires AllSafe(base) && forall l | l in lines :: IsHeader(l)
    ensures AllSafe(Headers(base, lines))
    decreases |lines|
  {
    if lines != [] {
      var l := lines[0];
      assert l in lines;
      HeaderMatches(l);
      var (k, v) := MatchHeader(l).value;
      HeaderExact(l, k, v);
      assert NoCrlf(k) by {
        forall j ensures !CrlfAt(k, j) {
          assert CrlfAt(k, j) ==> CrlfAt(l, j);
        }
      }
      ReadHeadersAreSafe(base[k := v], lines[1..]);
    }
  }

  ghost predicate ReadsBack(r: Response, order: seq<string>, req: Request)
    requires forall k | k in order :: k in r.headers
  {
    Parse(Context(ExpectHeaders, req), Block(r, order) + r.body)
      == Outcome(true, Context(GotAll, req.(headers := Expected(r))), r.body)
  }

  /** The content-length line survives 13 digits. Past 14 it swallows the next line, which only goes
      unnoticed when the response overrides both entries. */
  predicate LengthFits(r: Response) {
    var n := |Digits(|r.body|)|;
    r.close || n <= 13 || (n >= 15 && LENGTH in r.headers && CONNECTION in r.headers)
  }

  /** The printed block reads back, with exactly the body left over, if and only if every key is free of
      colons and line ends, every value is free of CR and LF, and the length line fits. */
  lemma RoundTripExactly(r: Response, order: seq<string>, req: Request)
    requires Enumerates(order, r.headers)
    requires req.verb != Post && req.headers == map[]
    ensures ReadsBack(r, order, req) <==> AllSafe(r.headers) && LengthFits(r)
  {
    var buf := Block(r, order) + r.body;
    if ReadsBack(r, order, req) {
      var lines, end, rest := HeaderBlockWritten(req, buf);
      ReadHeadersAreSafe(map[], lines);
      assert forall k | k in r.headers :: k in Expected(r) && Expected(r)[k] == r.headers[k];
    }
    if AllSafe(r.headers) {
      if !r.close && |Digits(|r.body|)| == 14 {
        FourteenDigitsRead(r, order, req);
        assert r.close || CONNECTION in Expected(r);
      } else {
        SafeBlockRead(r, order, req);
        OverriddenExactly(r);
      }
    }
  }

  lemma OverriddenExactly(r: Response)
    requires r.close || |Digits(|r.body|)| != 14
    ensures IntroMap(r) + r.headers == Expected(r) <==> LengthFits(r)
  {
    var d := Digits(|r.body|);
    if !r.close && |d| >= 15 {
      var wrong := d[..15] + KeepLine();
      assert wrong[15] == 'C' && (|d| > 15 ==> IsDigit(d[15]));
      if LENGTH !in r.headers {
        assert (IntroMap(r) + r.headers)[LENGTH] == wrong != Expected(r)[LENGTH];
      } else if CONNECTION !in r.headers {
        assert CONNECTION !in IntroMap(r) + r.headers && CONNECTION in Expected(r);
      } else {
        assert IntroMap(r) + r.headers == Expected(r);
      }
    }
  }

  lemma Join(before: string, a: string, b: string, c: string)
    ensures before + a + b + c == before + (a + b + c)
    ensures before + a + b == before + (a + b)
  {
  }

  lemma JoinPrinted(before: string, a: string, b: string, c: string, d: string, e: string)
    ensures before + a + b + c + d + e == before + (a + (b + (c + d) + e))
    ensures before + a + b + c + d == before + (a + b + c + d)
  {
  }

  lemma CloseLiteral()
    ensures "Connection: close\r\n" == CloseLine() + CRLF
  {
  }

  lemma KeepLiteral()
    ensures "Connection: Keep-Alive\r\n" == KeepLine() + CRLF
  {
  }

  lemma LengthLiteral(digits: string)
    ensures "Content-Length: " + digits + CRLF == HeaderLine(LENGTH, digits) + CRLF
  {
  }

  class HttpResponse {
    var headers: map<string, string>
    var version: int
    var statusCode: int
    var statusMessage: string
    var closeConnection: bool
    var body: string

    ghost function View(): Response
      reads this
    {
      Response(version, statusCode, statusMessage, closeConnection, headers, body)
    }

    constructor (close: bool)
      ensures closeConnection == close && statusCode == 0 && headers == map[] && statusMessage == body == ""
    {
      closeConnection, statusCode, headers, statusMessage, body := close, 0, map[], "", "";
    }

    method AddHeader(key: string, value: string)
      modifies `headers
      ensures headers == old(headers)[key := value]
    {
      headers := headers[key := value];
    }

    method Put(output: Buffer, s: string)
      requires output.Valid()
      modifies output, output.buffer
      ensures output.Valid() && (output.buffer == old(output.buffer) || fresh(output.buffer))
      ensures output.Contents() == old(output.Contents()) + s
    {
      output.Append(s);
    }

    /** Appends the printed response, header by header in the map's order. */
    method AppendToBuffer(output: Buffer, order: seq<string>)
      requires output.Valid() && Enumerates(order, headers)
      modifies output, output.buffer
      ensures output.Valid() && (output.buffer == old(output.buffer) || fresh(output.buffer))
      ensures output.Contents() == old(output.Contents()) + Printed(View(), order)
    {
      ghost var before, r := output.Contents(), View();
      AppendStatus(output);
      AppendIntro(output);
      AppendHeaders(output, order);
      Put(output, CRLF);
      Put(output, body);
      JoinPrinted(before, StatusLine(r), Intro(r), Wire(Lines(r.headers, order)), CRLF, r.body);
    }

    method AppendStatus(output: Buffer)
      requires output.Valid()
      modifies output, output.buffer
      ensures output.Valid() && (output.buffer == old(output.buffer) || fresh(output.buffer))
      ensures output.Contents() == old(output.Contents()) + StatusLine(View())
    {
      ghost var before := output.Contents();
      var start := Printf32("HTTP/1." + Decimal(version) + " " + Decimal(statusCode) + " ");
      Put(output, start);
      Put(output, statusMessage);
      Put(output, CRLF);
      Join(before, start, statusMessage, CRLF);
    }

    method AppendIntro(output: Buffer)
      requires output.Valid()
      modifies output, output.buffer
      ensures output.Valid() && (output.buffer == old(output.buffer) || fresh(output.buffer))
      ensures output.Contents() == old(output.Contents()) + Intro(View())
    {
      ghost var before := output.Contents();
      if closeConnection {
        CloseLiteral();
        Put(output, "Connection: close\r\n");
      } else {
        var length := Printf32("Content-Length: " + Digits(|body|) + CRLF);
        LengthLiteral(Digits(|body|));
        KeepLiteral();
        Put(output, length);
        Put(output, "Connection: Keep-Alive\r\n");
        Join(before, length, KeepLine() + CRLF, "");
      }
    }

    method AppendHeaders(output: Buffer, order: seq<string>)
      requires output.Valid() && forall k | k in order :: k in headers
      modifies output, output.buffer
      ensures output.Valid() && (output.buffer == old(output.buffer) || fresh(output.buffer))
      ensures output.Contents() == old(output.Contents()) + Wire(Lines(headers, order))
    {
      ghost var before := output.Contents();
      var i := 0;
      while i < |order|
        invariant 0 <= i <= |order|
        invariant output.Valid() && (output.buffer == old(output.buffer) || fresh(output.buffer))
        invariant output.Contents() + Wire(Lines(headers, order[i..])) == before + Wire(Lines(headers, order))
      {
        ghost var now, left := output.Contents(), Lines(headers, order[i + 1..]);
        assert order[i] in order && order[i..] == [order[i]] + order[i + 1..];
        ghost var line := HeaderLine(order[i], headers[order[i]]);
        assert Lines(headers, order[i..]) == [line] + left;
        WireCons(line, left, "");
        AppendHeader(output, order[i]);
        assert output.Contents() + Wire(left) == now + (line + CRLF + (Wire(left) + ""));
        i := i + 1;
      }
      assert order[i..] == [];
      assert output.Contents() + "" == output.Contents();
    }

    method AppendHeader(output: Buffer, k: string)
      requires output.Valid() && k in headers
      modifies output, output.buffer
      ensures output.Valid() && (output.buffer == old(output.buffer) || fresh(output.buffer))
      ensures output.Contents() == old(output.Contents()) + (HeaderLine(k, headers[k]) + CRLF)
    {
      ghost var before := output.Contents();
      Put(output, k);
      Put(output, ": ");
      Put(output, headers[k]);
      Put(output, CRLF);
      JoinPrinted(before, k, ": ", headers[k], CRLF, "");
    }
  }
}
