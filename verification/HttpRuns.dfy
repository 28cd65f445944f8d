/** Whole connections: what the reads deliver against what the parser gets, and when requests wait. */
module HttpRuns {
  import opened Bytes
  import opened HttpRequests
  import opened HttpParsing
  import opened HttpServing

  predicate IsSuffix(rest: string, all: string) {
    |rest| <= |all| && rest == all[|all| - |rest|..]
  }

  lemma SuffixOfSuffix(a: string, b: string, c: string)
    requires IsSuffix(a, b) && IsSuffix(b, c)
    ensures IsSuffix(a, c)
  {
  }

  lemma TurnSuffix(c: Context, buf: string)
    requires Resting(c)
    ensures IsSuffix(Turn(c, buf).rest, buf)
  {
    assert forall k | 0 <= k <= |buf| :: IsSuffix(buf[k..], buf);
  }

  lemma {:induction false} RestIsSuffix(c: Context, buf: string)
    requires Resting(c)
    ensures IsSuffix(Parse(c, buf).rest, buf)
    decreases |buf|
  {
    var t := Turn(c, buf);
    TurnSuffix(c, buf);
    if t.more && t.ctx.state != ExpectBody {
      RestIsSuffix(t.ctx, t.rest);
      SuffixOfSuffix(Parse(t.ctx, t.rest).rest, t.rest, buf);
    } else if t.more {
      assert Parse(t.ctx, t.rest).rest == "" == buf[|buf|..];
    }
  }

  lemma FedSuffix(c: Connection, chunk: string)
    requires Resting(c.ctx)
    ensures IsSuffix(Feed(c, chunk).buf, c.buf + chunk)
  {
    RestIsSuffix(c.ctx, c.buf + chunk);
  }

  /** A connection with all the bytes the reads have delivered and all the bytes the parser has consumed;
      `broken` once the cursors of the buffer are out of order. */
  datatype Session = Session(conn: Connection, received: string, consumed: string, broken: bool)

  const NEW_SESSION := Session(NEW_CONNECTION, "", "", false)

  predicate Enabled(s: Session, r: Reading) {
    Resting(s.conn.ctx) && !s.broken && Possible(r)
  }

  /** The bytes that leave the buffer's front when it comes to hold `all` and is left with `rest`. */
  function Gone(all: string, rest: string): string {
    if |rest| <= |all| then all[..|all| - |rest|] else ""
  }

  function Fed(s: Session, r: Reading): Session
    requires Resting(s.conn.ctx)
  {
    var d := Feed(s.conn, Entered(r));
    Session(d, s.received + r.delivered, s.consumed + Gone(s.conn.buf + Entered(r), d.buf), false)
  }

  function Step(s: Session, r: Reading): Session
    requires Enabled(s, r)
  {
    if r.n > 0 then Fed(s, r)
    else match Receive(s.conn, r)
      case None => s.(broken := true)
      case Some(d) => s.(conn := d)
  }

  ghost predicate IsRun(ss: seq<Session>, rs: seq<Reading>) {
    && |ss| == |rs| + 1 && ss[0] == NEW_SESSION
    && forall i | 0 <= i < |rs| :: Enabled(ss[i], rs[i]) && ss[i + 1] == Step(ss[i], rs[i])
  }

  /** The parser has got, and still gets, exactly what was received. */
  predicate Faithful(s: Session) {
    !s.broken && s.received == s.consumed + s.conn.buf
  }

  /** A read that did not fail, and whose bytes fitted the free part of the buffer or found none. */
  predicate Good(r: Reading) {
    r.n >= 0 && (r.n <= r.free || r.free == 0)
  }

  lemma FedSeen(s: Session, r: Reading)
    requires Resting(s.conn.ctx)
    ensures var t := Fed(s, r); t.consumed + t.conn.buf == s.consumed + s.conn.buf + Entered(r)
  {
    FedSuffix(s.conn, Entered(r));
    SplitOff(s.consumed, s.conn.buf, Entered(r), Feed(s.conn, Entered(r)).buf);
  }

  lemma SplitOff(a: string, b: string, c: string, rest: string)
    requires IsSuffix(rest, b + c)
    ensures a + Gone(b + c, rest) + rest == a + b + c
  {
    assert b + c == Gone(b + c, rest) + rest;
  }

  /** One read keeps it if and only if the read is good. */
  lemma StepExactly(s: Session, r: Reading)
    requires Enabled(s, r) && Faithful(s)
    ensures Faithful(Step(s, r)) <==> Good(r)
  {
    if r.n > 0 {
      FedSeen(s, r);
      EnteredExactly(s.received, r);
    } else if r.n < 0 && s.conn.buf != "" {
      assert |s.conn.buf[..|s.conn.buf| - 1]| < |s.conn.buf|;
    }
  }

  lemma EnteredExactly(received: string, r: Reading)
    requires Possible(r) && r.n > 0
    ensures received + r.delivered == received + Entered(r) <==> Good(r)
  {
    assert |Entered(r)| == |r.delivered| + if r.n <= r.free then 0 else r.free;
    if Good(r) {
      GoodEntered(r);
    } else {
      assert |received + r.delivered| != |received + Entered(r)|;
    }
  }

  /** Over any run of reads: what is parsed is what was received, at every moment, if and only if no read
      failed and every one fitted the free part of the buffer or found none. */
  lemma FaithfulExactly(ss: seq<Session>, rs: seq<Reading>)
    requires IsRun(ss, rs)
    ensures (forall i | 0 <= i < |ss| :: Faithful(ss[i])) <==> (forall i | 0 <= i < |rs| :: Good(rs[i]))
  {
    if forall i | 0 <= i < |rs| :: Good(rs[i]) {
      forall i | 0 <= i < |ss| ensures Faithful(ss[i]) {
        GoodSoFar(ss, rs, i);
      }
    }
    if forall i | 0 <= i < |ss| :: Faithful(ss[i]) {
      forall i | 0 <= i < |rs| ensures Good(rs[i]) {
        assert Faithful(ss[i]) && Faithful(ss[i + 1]);
        StepExactly(ss[i], rs[i]);
      }
    }
  }

  lemma {:induction false} GoodSoFar(ss: seq<Session>, rs: seq<Reading>, i: nat)
    requires IsRun(ss, rs) && i < |ss| && forall j | 0 <= j < i :: Good(rs[j])
    ensures Faithful(ss[i])
  {
    if i > 0 {
      GoodSoFar(ss, rs, i - 1);
      StepExactly(ss[i - 1], rs[i - 1]);
    }
  }

  /** The chunks that good reads hand to the parser. */
  function Chunks(rs: seq<Reading>): seq<string> {
    if rs == [] then []
    else Chunks(rs[..|rs| - 1]) + if rs[|rs| - 1].n > 0 then [rs[|rs| - 1].delivered] else []
  }

  lemma {:induction false} ConcatAppend(a: seq<string>, b: seq<string>)
    ensures Concat(a + b) == Concat(a) + Concat(b)
    decreases |a|
  {
    if a == [] {
      assert a + b == b;
    } else {
      assert (a + b)[1..] == a[1..] + b;
      ConcatAppend(a[1..], b);
    }
  }

  lemma {:induction false} RunAppend(c: Connection, a: seq<string>, b: seq<string>)
    requires Resting(c.ctx)
    ensures Run(c, a + b) == Run(Run(c, a), b)
    decreases |a|
  {
    if a == [] {
      assert a + b == b;
    } else {
      assert (a + b)[1..] == a[1..] + b;
      RunAppend(Feed(c, a[0]), a[1..], b);
    }
  }

  lemma RunOne(c: Connection, chunk: string)
    requires Resting(c.ctx)
    ensures Run(c, [chunk]) == Feed(c, chunk) && Concat([chunk]) == chunk
  {
    assert [chunk][1..] == [] && chunk + "" == chunk;
    assert Run(Feed(c, chunk), []) == Feed(c, chunk);
  }

  /** Good reads make a run of chunks whose bytes are exactly those received. */
  lemma {:induction false} GoodRunIsRun(ss: seq<Session>, rs: seq<Reading>, i: nat)
    requires IsRun(ss, rs) && i < |ss| && forall j | 0 <= j < i :: Good(rs[j])
    ensures ss[i].conn == Run(NEW_CONNECTION, Chunks(rs[..i])) && ss[i].received == Concat(Chunks(rs[..i]))
  {
    if i > 0 {
      GoodRunIsRun(ss, rs, i - 1);
      var r, before := rs[i - 1], Chunks(rs[..i - 1]);
      assert rs[..i][..i - 1] == rs[..i - 1];
      GoodEntered(r);
      if r.n > 0 {
        RunAppend(NEW_CONNECTION, before, [r.delivered]);
        ConcatAppend(before, [r.delivered]);
        RunOne(Run(NEW_CONNECTION, before), r.delivered);
      } else {
        assert before + [] == before && ss[i - 1].received + "" == ss[i - 1].received;
      }
    }
  }

  lemma GoodEntered(r: Reading)
    requires Possible(r) && Good(r)
    ensures Entered(r) == r.delivered
  {
    assert r.delivered + "" == r.delivered;
    assert r.n > r.free ==> r.residue == "";
  }

  /** From the socket to the application: with good reads, the requests dispatched are a prefix of the parse
      of all the bytes received if and only if no byte comes after a dispatched POST. */
  lemma ReceivedIsDispatched(ss: seq<Session>, rs: seq<Reading>)
    requires IsRun(ss, rs) && forall i | 0 <= i < |rs| :: Good(rs[i])
    ensures ss[|rs|].conn.dispatched <= Requests(NEW_CONNECTION.ctx, ss[|rs|].received)
       <==> !PostOvertaken(NEW_CONNECTION, Chunks(rs), "")
  {
    assert rs[..|rs|] == rs;
    GoodRunIsRun(ss, rs, |rs|);
    DispatchedIsPrefix(Chunks(rs));
  }

  /** How many requests the first `k` reads have brought, and how many have been dispatched by then. */
  function Arrived(chunks: seq<string>, k: nat): nat
    requires k <= |chunks|
  {
    |Requests(NEW_CONNECTION.ctx, Concat(chunks[..k]))|
  }

  function Dispatched(chunks: seq<string>, k: nat): nat
    requires k <= |chunks|
  {
    |Run(NEW_CONNECTION, chunks[..k]).dispatched|
  }

  lemma {:induction false} OvertakenGrows(c: Connection, a: seq<string>, b: seq<string>)
    requires Resting(c.ctx) && PostOvertaken(c, a, "")
    ensures PostOvertaken(c, a + b, "")
    decreases |a|
  {
    assert (a + b)[1..] == a[1..] + b;
    ConcatAppend(a[1..], b);
    if PostOvertaken(Feed(c, a[0]), a[1..], "") {
      OvertakenGrows(Feed(c, a[0]), a[1..], b);
    }
  }

  /** What has arrived has been dispatched or waits in the buffer. */
  lemma Waiting(chunks: seq<string>, k: nat)
    requires !PostOvertaken(NEW_CONNECTION, chunks, "") && k <= |chunks|
    ensures var d := Run(NEW_CONNECTION, chunks[..k]);
      Arrived(chunks, k) == Dispatched(chunks, k) + |Requests(d.ctx, d.buf)|
  {
    assert chunks == chunks[..k] + chunks[k..];
    if PostOvertaken(NEW_CONNECTION, chunks[..k], "") {
      OvertakenGrows(NEW_CONNECTION, chunks[..k], chunks[k..]);
    }
    InStep(NEW_CONNECTION, chunks[..k]);
  }

  /** Parsing what a parse has left over goes no further. */
  lemma {:induction false} Settled(c: Context, buf: string)
    requires Resting(c) && Parse(c, buf).ctx.state != GotAll
    ensures Requests(Parse(c, buf).ctx, Parse(c, buf).rest) == []
    decreases |buf|
  {
    var t := Turn(c, buf);
    if t.more {
      Settled(t.ctx, t.rest);
    }
  }

  /** A read dispatches one request, if there is one. */
  lemma OneMore(c: Connection, chunk: string)
    requires Resting(c.ctx)
    ensures var d := Feed(c, chunk);
      var total := |d.dispatched| + |Requests(d.ctx, d.buf)|;
      |d.dispatched| == |c.dispatched| + if total > |c.dispatched| then 1 else 0
  {
    if Parse(c.ctx, c.buf + chunk).ctx.state != GotAll {
      Settled(c.ctx, c.buf + chunk);
    }
  }

  lemma NextRead(chunks: seq<string>, k: nat)
    requires k < |chunks|
    ensures Run(NEW_CONNECTION, chunks[..k + 1]) == Feed(Run(NEW_CONNECTION, chunks[..k]), chunks[k])
  {
    assert chunks[..k + 1] == chunks[..k] + [chunks[k]];
    RunAppend(NEW_CONNECTION, chunks[..k], [chunks[k]]);
    RunOne(Run(NEW_CONNECTION, chunks[..k]), chunks[k]);
  }

  lemma NothingAtFirst(chunks: seq<string>)
    ensures Arrived(chunks, 0) == Dispatched(chunks, 0) == 0
  {
    assert chunks[..0] == [] && FindCrlf("").None?;
  }

  /** A queue that serves one customer a round: `a` have come and `d` have been served after each round. */
  predicate OneServer(a: seq<nat>, d: seq<nat>) {
    && |a| == |d| > 0 && a[0] == d[0] == 0 && (forall k | 0 <= k < |a| :: d[k] <= a[k])
    && forall k | 0 < k < |a| :: d[k] == d[k - 1] + if a[k] > d[k - 1] then 1 else 0
  }

  /** Those served are bounded by those that had come at any earlier moment and the rounds since. */
  lemma {:induction false} OnePerRound(a: seq<nat>, d: seq<nat>, k: nat, n: nat)
    requires OneServer(a, d) && k <= n < |a|
    ensures d[n] <= a[k] + (n - k)
    decreases n
  {
    if k < n {
      OnePerRound(a, d, k, n - 1);
    }
  }

  /** And for some moment that bound is met: since then every round has served one. */
  lemma {:induction false} BusySince(a: seq<nat>, d: seq<nat>, n: nat) returns (k: nat)
    requires OneServer(a, d) && n < |a|
    ensures k <= n && d[n] == a[k] + (n - k)
  {
    k := n;
    if d[n] != a[n] {
      k := BusySince(a, d, n - 1);
    }
  }

  function Arrivals(chunks: seq<string>): seq<nat> {
    seq(|chunks| + 1, k requires 0 <= k <= |chunks| => Arrived(chunks, k))
  }

  function Dispatches(chunks: seq<string>): seq<nat> {
    seq(|chunks| + 1, k requires 0 <= k <= |chunks| => Dispatched(chunks, k))
  }

  lemma ServesAt(chunks: seq<string>, k: nat)
    requires !PostOvertaken(NEW_CONNECTION, chunks, "") && 0 < k <= |chunks|
    ensures Dispatched(chunks, k)
         == Dispatched(chunks, k - 1) + if Arrived(chunks, k) > Dispatched(chunks, k - 1) then 1 else 0
  {
    Waiting(chunks, k);
    NextRead(chunks, k - 1);
    OneMore(Run(NEW_CONNECTION, chunks[..k - 1]), chunks[k - 1]);
  }

  /** The server is such a queue of requests, with one round a read. */
  lemma ServesOne(chunks: seq<string>)
    requires !PostOvertaken(NEW_CONNECTION, chunks, "")
    ensures OneServer(Arrivals(chunks), Dispatches(chunks))
  {
    NothingAtFirst(chunks);
    forall k | 0 <= k <= |chunks| ensures Dispatched(chunks, k) <= Arrived(chunks, k) {
      Waiting(chunks, k);
    }
    forall k | 0 < k <= |chunks|
      ensures Dispatched(chunks, k)
           == Dispatched(chunks, k - 1) + if Arrived(chunks, k) > Dispatched(chunks, k - 1) then 1 else 0
    {
      ServesAt(chunks, k);
    }
  }

  lemma NoRequests(c: Context, buf: string)
    requires Resting(c)
    ensures Requests(c, buf) == [] <==> Parse(c, buf).ctx.state != GotAll
  {
  }

  /** No stretch of reads at the end has brought more requests than it had reads. */
  predicate KeepsPace(chunks: seq<string>) {
    var n := |chunks|;
    forall k | 0 <= k <= n :: Arrived(chunks, n) - Arrived(chunks, k) <= n - k
  }

  /** A run ends with no complete request left in the buffer if and only if its reads keep pace. A pipelined
      request beyond that waits for another read. */
  lemma NoneWaitsExactly(chunks: seq<string>)
    requires !PostOvertaken(NEW_CONNECTION, chunks, "")
    ensures var d := Run(NEW_CONNECTION, chunks); Parse(d.ctx, d.buf).ctx.state != GotAll <==> KeepsPace(chunks)
  {
    var n, a, d := |chunks|, Arrivals(chunks), Dispatches(chunks);
    assert chunks[..n] == chunks;
    Waiting(chunks, n);
    NoRequests(Run(NEW_CONNECTION, chunks).ctx, Run(NEW_CONNECTION, chunks).buf);
    ServesOne(chunks);
    PaceExactly(chunks, a, d);
  }

  lemma PaceExactly(chunks: seq<string>, a: seq<nat>, d: seq<nat>)
    requires OneServer(a, d) && |a| == |chunks| + 1 && forall k | 0 <= k <= |chunks| :: a[k] == Arrived(chunks, k)
    ensures a[|chunks|] == d[|chunks|] <==> KeepsPace(chunks)
  {
    var n := |chunks|;
    forall k | 0 <= k <= n ensures d[n] <= a[k] + (n - k) {
      OnePerRound(a, d, k, n);
    }
    var k := BusySince(a, d, n);
    assert Arrived(chunks, n) - Arrived(chunks, k) <= n - k ==> d[n] >= a[n];
  }
}
