/** The numbers of a printed response, read back by a reader of their own. */
module HttpNumbers {
  import opened Bytes
  import opened HttpRequests
  import opened HttpParsing
  import opened HttpResponses

  predicate AllDigits(s: string) {
    forall i | 0 <= i < |s| :: '0' <= s[i] <= '9'
  }

  /** The number that a string of decimal digits stands for. */
  function Value(s: string): nat
    requires AllDigits(s)
  {
    if s == "" then 0 else 10 * Value(s[..|s| - 1]) + (s[|s| - 1] as int - '0' as int)
  }

  function Power(k: nat): nat {
    if k == 0 then 1 else 10 * Power(k - 1)
  }

  /** Printed digits stand for the number, without a leading zero, and are as few as that takes. */
  lemma {:induction false} DigitsExactly(n: nat)
    ensures Value(Digits(n)) == n
    ensures |Digits(n)| > 1 ==> Digits(n)[0] != '0'
    ensures |Digits(n)| > 1 ==> n >= Power(|Digits(n)| - 1)
    ensures n < Power(|Digits(n)|)
    decreases n
  {
    if n >= 10 {
      DigitsExactly(n / 10);
      var d, last := Digits(n / 10), Digits(n % 10);
      assert Digits(n) == d + last && |last| == 1 && (d + last)[..|d|] == d;
    } else {
      assert Digits(n)[..0] == "";
    }
  }

  lemma {:induction false} PowerGrows(a: nat, b: nat)
    requires a <= b
    ensures Power(a) <= Power(b)
    decreases b
  {
    if a < b {
      PowerGrows(a, b - 1);
    }
  }

  /** At most `k` digits are printed exactly for the numbers below ten to the k. */
  lemma DigitCount(n: nat, k: nat)
    requires k > 0
    ensures |Digits(n)| <= k <==> n < Power(k)
  {
    var d := |Digits(n)|;
    DigitsExactly(n);
    if d <= k {
      PowerGrows(d, k);
    } else {
      PowerGrows(k, d - 1);
    }
  }

  /** The Content-Length that the reader ends up with stands for the size of the body, for every body below ten
      to the thirteen, unless the response has such an entry of its own. */
  lemma LengthRead(r: Response, order: seq<string>, req: Request)
    requires Enumerates(order, r.headers) && AllSafe(r.headers)
    requires req.verb != Post && req.headers == map[]
    requires !r.close && |r.body| < Power(13) && "Content-Length" !in r.headers
    ensures var h := Parse(Context(ExpectHeaders, req), Block(r, order) + r.body).ctx.req.headers;
      && "Content-Length" in h
      && AllDigits(h["Content-Length"])
      && Value(h["Content-Length"]) == |r.body|
  {
    DigitCount(|r.body|, 13);
    DigitsExactly(|r.body|);
    RoundTripExactly(r, order, req);
    assert ReadsBack(r, order, req);
  }

  /** An optional minus and digits. */
  function Number(s: string): Option<int> {
    if s != "" && AllDigits(s) then
      var v: int := Value(s);
      Some(v)
    else if |s| > 1 && s[0] == '-' && AllDigits(s[1..]) then
      var v: int := Value(s[1..]);
      Some(-v)
    else None
  }

  lemma SignedNumber(d: string, v: int)
    requires d != "" && AllDigits(d) && Value(d) == v
    ensures Number(d) == Some(v) && Number("-" + d) == Some(-v)
  {
    assert ("-" + d)[0] == '-' && ("-" + d)[1..] == d;
  }

  lemma DecimalExactly(i: int)
    ensures Number(Decimal(i)) == Some(i)
  {
    var n := if i < 0 then -i else i;
    DigitsExactly(n);
    SignedNumber(Digits(n), n);
  }

  lemma NoSpace(i: int)
    ensures ' ' !in Decimal(i)
  {
  }

  /** A reader of status lines: `HTTP/1.`, the version, the code and the message. */
  function ReadStatus(line: string): Option<(int, int, string)> {
    if !("HTTP/1." <= line) then None
    else
      match IndexOf(line, ' ', 7)
      case None => None
      case Some(i) =>
        match IndexOf(line, ' ', i + 1)
        case None => None
        case Some(j) =>
          match (Number(line[7..i]), Number(line[i + 1..j]))
          case (Some(version), Some(code)) => Some((version, code, line[j + 1..]))
          case _ => None
  }

  lemma ReadParts(version: string, code: string, message: string)
    requires ' ' !in version && ' ' !in code
    ensures var line, i, j := "HTTP/1." + version + " " + code + " " + message, 7 + |version|, 8 + |version| + |code|;
      && "HTTP/1." <= line && IndexOf(line, ' ', 7) == Some(i) && IndexOf(line, ' ', i + 1) == Some(j)
      && line[7..i] == version && line[i + 1..j] == code && line[j + 1..] == message
  {
    var line, i := "HTTP/1." + version + " " + code + " " + message, 7 + |version|;
    assert line == "HTTP/1." + version + [' '] + (code + " " + message);
    IndexOfAfter("HTTP/1.", version, ' ', code + " " + message);
    assert line == ("HTTP/1." + version + " ") + code + [' '] + message;
    IndexOfAfter("HTTP/1." + version + " ", code, ' ', message);
  }

  function Start(r: Response): string { "HTTP/1." + Decimal(r.version) + " " + Decimal(r.statusCode) + " " }

  /** The status line, when its start is not cut, reads back as version, code and message. */
  lemma StatusRead(r: Response)
    requires |Start(r)| <= 31
    ensures StatusLine(r) == Start(r) + r.statusMessage + CRLF
    ensures ReadStatus(Start(r) + r.statusMessage) == Some((r.version, r.statusCode, r.statusMessage))
  {
    DecimalExactly(r.version);
    DecimalExactly(r.statusCode);
    NoSpace(r.version);
    NoSpace(r.statusCode);
    ReadParts(Decimal(r.version), Decimal(r.statusCode), r.statusMessage);
  }

  lemma StartIsClean(r: Response)
    ensures '\r' !in Start(r) && '\n' !in Start(r)
  {
    var v, c := Decimal(r.version), Decimal(r.statusCode);
    assert forall d | d in v || d in c :: d == '-' || '0' <= d <= '9';
  }

  lemma LineClean(start: string, message: string)
    requires '\r' !in start && '\n' !in start && NoCrlf(message)
    ensures NoCrlf(start + message)
  {
    forall k ensures !CrlfAt(start + message, k) {
      assert CrlfAt(start + message, k) ==> k >= |start| && CrlfAt(message, k - |start|);
    }
  }

  /** The whole printed response, cut at its first line end: a line that reads back as version, code and message,
      and then what RoundTripExactly is about. */
  lemma PrintedRead(r: Response, order: seq<string>)
    requires forall k | k in order :: k in r.headers
    requires |Start(r)| <= 31 && NoCrlf(r.statusMessage)
    ensures var k := FindCrlf(Printed(r, order));
      && k.Some? && ReadStatus(Printed(r, order)[..k.value]) == Some((r.version, r.statusCode, r.statusMessage))
      && Printed(r, order)[k.value + 2..] == Block(r, order) + r.body
  {
    StatusRead(r);
    StartIsClean(r);
    LineClean(Start(r), r.statusMessage);
    FindCrlfAfterLine(Start(r) + r.statusMessage, Block(r, order) + r.body);
  }
}
