/** muduo_se/net/HttpRequest.h: the parsed request and the two line patterns. */
module HttpRequests {
  import opened Bytes

  datatype Method = Invalid | Get | Post | Head | Put | Delete

  /** `kUnknown` and `kHttp10` are the same enumerator value, so an unknown version is Http10. */
  datatype Version = Http10 | Http11

  /** Everything a request holds but its receive time. */
  datatype Request = Request(
    verb: Method, version: Version, path: string, query: string, headers: map<string, string>, body: string)

  const EMPTY_REQUEST := Request(Invalid, Http10, "", "", map[], "")

  function IndexOf(s: string, c: char, from: nat): (r: Option<nat>)
    ensures r.Some? ==> from <= r.value < |s| && s[r.value] == c && forall j | from <= j < r.value :: s[j] != c
    ensures r.None? ==> forall j | from <= j < |s| :: s[j] != c
    decreases |s| - from
  {
    if from >= |s| then None
    else if s[from] == c then Some(from)
    else IndexOf(s, c, from + 1)
  }

  /** What the pattern `([^ ]*) ([^ ]*) HTTP/([^ ]*)` means. */
  ghost predicate RequestLineShape(line: string, m: string, p: string, v: string) {
    && ' ' !in m && ' ' !in p && ' ' !in v
    && line == m + " " + p + " HTTP/" + v
  }

  function MatchRequestLine(line: string): (r: Option<(string, string, string)>)
  {
    match IndexOf(line, ' ', 0)
    case None => None
    case Some(i) =>
      match IndexOf(line, ' ', i + 1)
      case None => None
      case Some(j) =>
        if IndexOf(line, ' ', j + 1).None? && "HTTP/" <= line[j + 1..] then
          Some((line[..i], line[i + 1..j], line[j + 6..]))
        else None
  }

  lemma IndexOfAfter(before: string, word: string, c: char, rest: string)
    requires c !in word
    ensures IndexOf(before + word + [c] + rest, c, |before|) == Some(|before| + |word|)
  {
    var s, k := before + word + [c] + rest, |before| + |word|;
    assert s[k] == c;
    assert forall j | |before| <= j < k :: s[j] == word[j - |before|];
  }

  lemma RequestLineRead(m: string, p: string, v: string)
    requires ' ' !in m && ' ' !in p && ' ' !in v
    ensures MatchRequestLine(m + " " + p + " HTTP/" + v) == Some((m, p, v))
  {
    var line, i, j := m + " " + p + " HTTP/" + v, |m|, |m| + 1 + |p|;
    FirstSpace(m, p + " HTTP/" + v, line);
    SecondSpace(m, p, v, line);
    LastPart(m, p, v, line);
  }

  lemma FirstSpace(m: string, tail: string, line: string)
    requires ' ' !in m && line == m + " " + tail
    ensures IndexOf(line, ' ', 0) == Some(|m|) && line[..|m|] == m
  {
    assert line == [] + m + [' '] + tail;
    IndexOfAfter([], m, ' ', tail);
  }

  lemma SecondSpace(m: string, p: string, v: string, line: string)
    requires ' ' !in p && line == m + " " + p + " HTTP/" + v
    ensures IndexOf(line, ' ', |m| + 1) == Some(|m| + 1 + |p|) && line[|m| + 1..|m| + 1 + |p|] == p
  {
    var before, tail := m + " ", "HTTP/" + v;
    assert line == before + p + [' '] + tail;
    IndexOfAfter(before, p, ' ', tail);
  }

  lemma LastPart(m: string, p: string, v: string, line: string)
    requires ' ' !in v && line == m + " " + p + " HTTP/" + v
    ensures var j := |m| + 1 + |p|;
      IndexOf(line, ' ', j + 1).None? && "HTTP/" <= line[j + 1..] && line[j + 6..] == v
  {
    var j, tail := |m| + 1 + |p|, "HTTP/" + v;
    assert line[j + 1..] == tail;
    assert forall k | j + 1 <= k < |line| :: line[k] == tail[k - j - 1];
  }

  lemma RequestLineWritten(line: string)
    requires MatchRequestLine(line).Some?
    ensures var (m, p, v) := MatchRequestLine(line).value; RequestLineShape(line, m, p, v)
  {
  }

  /** The matcher accepts exactly the lines of that shape, and its three groups are the only reading. */
  lemma RequestLineExact(line: string, m: string, p: string, v: string)
    ensures RequestLineShape(line, m, p, v) <==> MatchRequestLine(line) == Some((m, p, v))
  {
    if RequestLineShape(line, m, p, v) {
      RequestLineRead(m, p, v);
    }
    if MatchRequestLine(line).Some? {
      RequestLineWritten(line);
    }
  }

  ghost predicate SafeKey(k: string) { ':' !in k && NoCrlf(k) }

  ghost predicate SafeValue(v: string) { '\r' !in v && '\n' !in v }

  /** What the pattern `([^:]*): ?(.*)` means: the optional space is taken when there is one. */
  ghost predicate HeaderShape(line: string, k: string, v: string) {
    && ':' !in k && SafeValue(v)
    && (line == k + ": " + v || (line == k + ":" + v && !(" " <= v)))
  }

  function MatchHeader(line: string): (r: Option<(string, string)>)
  {
    match IndexOf(line, ':', 0)
    case None => None
    case Some(i) =>
      var v := if " " <= line[i + 1..] then line[i + 2..] else line[i + 1..];
      if '\r' in v || '\n' in v then None else Some((line[..i], v))
  }

  lemma HeaderExact(line: string, k: string, v: string)
    ensures HeaderShape(line, k, v) <==> MatchHeader(line) == Some((k, v))
  {
    if HeaderShape(line, k, v) {
      HeaderRead(line, k, v);
    }
    if MatchHeader(line) == Some((k, v)) {
      HeaderWritten(line, k, v);
    }
  }

  lemma HeaderRead(line: string, k: string, v: string)
    requires HeaderShape(line, k, v)
    ensures MatchHeader(line) == Some((k, v))
  {
    assert line[|k|] == ':' && line[..|k|] == k;
    assert IndexOf(line, ':', 0) == Some(|k|);
    assert line[|k| + 1..] == if line == k + ": " + v then " " + v else v;
  }

  lemma HeaderWritten(line: string, k: string, v: string)
    requires MatchHeader(line) == Some((k, v))
    ensures HeaderShape(line, k, v)
  {
    FirstColon(line);
    var rest := line[IndexOf(line, ':', 0).value + 1..];
    if " " <= rest {
      SpaceTaken(k, rest, v);
    }
  }

  lemma FirstColon(line: string)
    requires IndexOf(line, ':', 0).Some?
    ensures var i := IndexOf(line, ':', 0).value;
      ':' !in line[..i] && line == line[..i] + ":" + line[i + 1..]
  {
  }

  lemma SpaceTaken(k: string, rest: string, v: string)
    requires " " <= rest && v == rest[1..]
    ensures k + ":" + rest == k + ": " + v
  {
    assert rest == " " + v;
  }

  function MethodOf(m: string): Method {
    if m == "GET" then Get
    else if m == "POST" then Post
    else if m == "HEAD" then Head
    else if m == "PUT" then Put
    else if m == "DELETE" then Delete
    else Invalid
  }

  function MethodName(m: Method): string {
    match m
    case Get => "GET"
    case Post => "POST"
    case Head => "HEAD"
    case Put => "PUT"
    case Delete => "DELETE"
    case Invalid => "UNKNOWN"
  }

  /** Parsing and printing a method: a printed method parses back, and a text prints back if and only if it is
      one of the five methods, or the very text that stands for none of them. */
  lemma MethodExactly(m: Method, text: string)
    ensures MethodOf(MethodName(m)) == m
    ensures MethodName(MethodOf(text)) == text <==> MethodOf(text) != Invalid || text == "UNKNOWN"
    ensures MethodOf(text) != Invalid <==> text in {"GET", "POST", "HEAD", "PUT", "DELETE"}
  {
    LongNames(text);
  }

  lemma LongNames(text: string)
    ensures text == "UNKNOWN" ==> MethodOf(text) == Invalid
  {
    assert |"UNKNOWN"| == 7 && |"DELETE"| == 6;
  }

  function VersionOf(v: string): Version {
    if v == "1.1" then Http11 else Http10
  }

  function VersionName(v: Version): string {
    if v == Http11 then "1.1" else "1.0"
  }

  /** A request's version names the text it was parsed from if and only if that is one of the two known ones:
      every other text passes for 1.0. */
  lemma VersionExactly(v: Version, text: string)
    ensures VersionOf(VersionName(v)) == v
    ensures VersionName(VersionOf(text)) == text <==> text == "1.0" || text == "1.1"
  {
    assert "1.0"[2] != "1.1"[2];
  }

  class HttpRequest {
    var verb: Method
    var version: Version
    var path: string
    var query: string
    var receiveTime: int
    var headers: map<string, string>
    var body: string

    constructor (now: int)
      ensures View() == EMPTY_REQUEST && receiveTime == now
    {
      verb, version, path, query, headers, body := Invalid, Http10, "", "", map[], "";
      receiveTime := now;
    }

    ghost function View(): Request
      reads this
    {
      Request(verb, version, path, query, headers, body)
    }

    method SetMethod(m: string) returns (known: bool)
      modifies `verb
      ensures verb == MethodOf(m) && known == (verb != Invalid)
    {
      if m == "GET" {
        verb := Get;
      } else if m == "POST" {
        verb := Post;
      } else if m == "HEAD" {
        verb := Head;
      } else if m == "PUT" {
        verb := Put;
      } else if m == "DELETE" {
        verb := Delete;
      } else {
        verb := Invalid;
      }
      known := verb != Invalid;
    }

    method SetVersion(v: string)
      modifies `version
      ensures version == VersionOf(v)
    {
      if v == "1.1" {
        version := Http11;
      } else if v == "1.0" {
        version := Http10;
      } else {
        version := Http10;
      }
    }

    method SetPath(p: string)
      modifies `path
      ensures path == p
    {
      path := p;
    }

    method SetReceiveTime(t: int)
      modifies `receiveTime
      ensures receiveTime == t
    {
      receiveTime := t;
    }

    /** Stores the header and says so, or leaves the request alone. */
    method AddHeader(line: string) returns (matched: bool)
      modifies `headers
      ensures matched == MatchHeader(line).Some?
      ensures headers == if matched then old(headers)[MatchHeader(line).value.0 := MatchHeader(line).value.1] else old(headers)
    {
      match MatchHeader(line) {
        case Some(pair) =>
          headers := headers[pair.0 := pair.1];
          matched := true;
        case None =>
          matched := false;
      }
    }

    method AddBody(bytes: string)
      modifies `body
      ensures View() == old(View()).(body := bytes)
    {
      body := bytes;
    }

    /** Exchanges the two requests but for their bodies, and copies the receive time one way. */
    method Swap(that: HttpRequest)
      modifies this, that
      ensures View() == old(that.View()).(body := old(body))
      ensures that.View() == old(View()).(body := old(that.body))
      ensures receiveTime == that.receiveTime == old(that.receiveTime)
    {
      verb, that.verb := that.verb, verb;
      version, that.version := that.version, version;
      path, that.path := that.path, path;
      query, that.query := that.query, query;
      receiveTime := that.receiveTime;
      headers, that.headers := that.headers, headers;
    }
  }
}
