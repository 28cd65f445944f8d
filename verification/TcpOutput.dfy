/** muduo_se/net/TcpConnect.cc: the send path of one connection, from sendinloop to the socket. */
module TcpOutput {
  import opened Bytes
  import opened GrowableBuffer

  /** `wire` is what the socket has accepted and `submitted` what callers have passed in; `asked` says that a
      shutdown was asked for, `shut` that the read side of the socket was shut down, `aborted` that the
      failed-write assertion stopped the program. */
  datatype Link = Link(
    queue: string, writing: bool, wire: string, submitted: string, asked: bool, shut: bool, aborted: bool)

  const OPEN_LINK := Link("", false, "", "", false, false, false)

  /** What happens to a connection; `n` is what write(2) answers if it is called. The write callback can come
      with write interest off: when one dispatch reports both end of file and room to write, the read callback
      has disabled all events just before. */
  datatype Event =
    | Send(data: string, n: int)
    | Writable(n: int)
    | WriteFails(stale: char)
    | Shutdown
    | Disable

  predicate Enabled(s: Link, e: Event) {
    !s.aborted &&
    match e
    case Send(data, n) => -1 <= n <= |data|
    case Writable(n) => s.queue != "" && 0 <= n <= |s.queue|
    case WriteFails(_) => s.queue != ""
    case Shutdown => true
    case Disable => true
  }

  /** The queue is written with result `n`; interest ends when that empties it. */
  function Wrote(s: Link, n: nat): Link
    requires n <= |s.queue|
  {
    s.(queue := s.queue[n..], writing := s.writing && (n == 0 || s.queue[n..] != ""), wire := s.wire + s.queue[..n])
  }

  function Step(s: Link, e: Event): Link
    requires Enabled(s, e)
  {
    match e
    case Send(data, n) =>
      if !s.writing && s.queue == "" then
        if n < 0 then s.(aborted := true)
        else s.(queue := data[n..], writing := n < |data|, wire := s.wire + data[..n], submitted := s.submitted + data)
      else
        s.(queue := s.queue + data, writing := s.writing || data != "", submitted := s.submitted + data)
    case Writable(n) => Wrote(s, n)
    case WriteFails(stale) => s.(queue := [stale] + s.queue)
    case Shutdown => if s.asked then s else s.(asked := true, shut := s.shut || !s.writing)
    case Disable => s.(writing := false)
  }

  /** The states reached by a list of events, each of which could happen. */
  ghost predicate Reaches(s: Link, es: seq<Event>, t: Link)
    decreases |es|
  {
    if es == [] then s == t else Enabled(s, es[0]) && Reaches(Step(s, es[0]), es[1..], t)
  }

  function Failures(es: seq<Event>): nat {
    if es == [] then 0 else (if es[0].WriteFails? then 1 else 0) + Failures(es[1..])
  }

  lemma StepExcess(s: Link, e: Event)
    requires Enabled(s, e)
    ensures var u := Step(s, e);
      && |u.wire| + |u.queue| - |u.submitted| == |s.wire| + |s.queue| - |s.submitted| + (if e.WriteFails? then 1 else 0)
      && (!e.WriteFails? && s.submitted == s.wire + s.queue ==> u.submitted == u.wire + u.queue)
  {
    match e
    case Send(data, n) =>
      if n >= 0 {
        Rejoin(s.wire, data, n);
      }
      Rejoin(s.wire, s.queue + data, |s.queue|);
    case Writable(n) => Rejoin(s.wire, s.queue, n);
    case _ =>
  }

  lemma Rejoin(a: string, b: string, n: nat)
    requires n <= |b|
    ensures a + b[..n] + b[n..] == a + b
  {
  }

  /** How many bytes the write calls of a run have taken: those for a queue, and those tried at once because
      nothing was queued and no interest on. */
  function Taken(s: Link, es: seq<Event>): int
    decreases |es|
  {
    if es == [] || !Enabled(s, es[0]) then 0
    else
      (match es[0]
       case Writable(n) => n
       case Send(_, n) => if !s.writing && s.queue == "" && n > 0 then n else 0
       case _ => 0)
      + Taken(Step(s, es[0]), es[1..])
  }

  /** What is on the wire is as much as the write calls have taken. */
  lemma {:induction false} WireExactly(s: Link, es: seq<Event>, t: Link)
    requires Reaches(s, es, t)
    ensures |t.wire| == |s.wire| + Taken(s, es)
    decreases |es|
  {
    if es != [] {
      WireExactly(Step(s, es[0]), es[1..], t);
    }
  }

  /** All that was passed in, but for what a failed direct write has stopped the program at. */
  function Passed(s: Link, es: seq<Event>): string
    decreases |es|
  {
    if es == [] || !Enabled(s, es[0]) then ""
    else (if es[0].Send? && !Step(s, es[0]).aborted then es[0].data else "") + Passed(Step(s, es[0]), es[1..])
  }

  lemma {:induction false} SubmittedExactly(s: Link, es: seq<Event>, t: Link)
    requires Reaches(s, es, t)
    ensures t.submitted == s.submitted + Passed(s, es)
    decreases |es|
  {
    if es != [] {
      SubmittedExactly(Step(s, es[0]), es[1..], t);
    }
  }

  /** The program stops exactly at a failed direct write. */
  lemma AbortExactly(s: Link, e: Event)
    requires Enabled(s, e)
    ensures Step(s, e).aborted <==> e.Send? && e.n == -1 && !s.writing && s.queue == ""
  {
  }

  /** Every failed write of the queue leaves one byte too many for good. */
  lemma {:induction false} Excess(s: Link, es: seq<Event>, t: Link)
    requires Reaches(s, es, t)
    ensures |t.wire| + |t.queue| - |t.submitted| == |s.wire| + |s.queue| - |s.submitted| + Failures(es)
    ensures Failures(es) == 0 && s.submitted == s.wire + s.queue ==> t.submitted == t.wire + t.queue
    decreases |es|
  {
    if es != [] {
      StepExcess(s, es[0]);
      Excess(Step(s, es[0]), es[1..], t);
    }
  }

  /** Over any run: the bytes submitted are, in order, the bytes on the wire followed by the queue, if and
      only if no write of the queue failed. */
  lemma ConservedExactly(es: seq<Event>, t: Link)
    requires Reaches(OPEN_LINK, es, t)
    ensures t.submitted == t.wire + t.queue <==> Failures(es) == 0
  {
    Excess(OPEN_LINK, es, t);
    if t.submitted == t.wire + t.queue {
      assert |t.submitted| == |t.wire| + |t.queue|;
    }
  }

  /** The bytes that lie in the queue are neither sent after nor all written. */
  predicate StillThere(s: Link, es: seq<Event>)
    decreases |es|
  {
    es == [] ||
    (Enabled(s, es[0]) && !(es[0].Send? && es[0].data != "") && Step(s, es[0]).queue != ""
     && StillThere(Step(s, es[0]), es[1..]))
  }

  /** Some disabling of the events found bytes in the queue, and since then nothing was sent and no late write
      has emptied it. */
  predicate LeftBehind(s: Link, es: seq<Event>)
    decreases |es|
  {
    es != [] && Enabled(s, es[0]) &&
    ((es[0].Disable? && s.queue != "" && StillThere(Step(s, es[0]), es[1..])) || LeftBehind(Step(s, es[0]), es[1..]))
  }

  /** Write interest is on exactly while bytes are queued. */
  predicate Agrees(s: Link) { s.writing <==> s.queue != "" }

  lemma {:induction false} InterestFrom(s: Link, es: seq<Event>, t: Link)
    requires Reaches(s, es, t) && (s.writing ==> s.queue != "")
    ensures t.writing ==> t.queue != ""
    ensures Agrees(t) <==> !LeftBehind(s, es) && (Agrees(s) || !StillThere(s, es))
    decreases |es|
  {
    if es != [] {
      InterestFrom(Step(s, es[0]), es[1..], t);
    }
  }

  /** Over any run: write interest is on exactly while bytes are queued, if and only if no disabling of the
      events has left bytes behind. */
  lemma InterestExactly(es: seq<Event>, t: Link)
    requires Reaches(OPEN_LINK, es, t)
    ensures Agrees(t) <==> !LeftBehind(OPEN_LINK, es)
    ensures t.writing ==> t.queue != ""
  {
    InterestFrom(OPEN_LINK, es, t);
  }

  /** And exactly then the first shutdown takes effect if and only if every submitted byte is on the wire. */
  lemma ShutdownExactly(es: seq<Event>, t: Link)
    requires Reaches(OPEN_LINK, es, t) && Failures(es) == 0 && !t.asked && Enabled(t, Shutdown)
    ensures (Step(t, Shutdown).shut <==> t.wire == t.submitted) <==> !LeftBehind(OPEN_LINK, es)
  {
    InterestExactly(es, t);
    ConservedExactly(es, t);
    AskedFirst(OPEN_LINK, es, t);
    if t.wire == t.submitted {
      assert |t.submitted| == |t.wire| + |t.queue|;
    }
  }

  lemma {:induction false} AskedFirst(s: Link, es: seq<Event>, t: Link)
    requires Reaches(s, es, t)
    ensures s.asked ==> t.asked && t.shut == s.shut
    ensures !t.asked ==> !s.asked && t.shut == s.shut
    ensures !s.asked ==> (t.asked <==> exists e :: e in es && e.Shutdown?)
    decreases |es|
  {
    if es != [] {
      assert es == [es[0]] + es[1..];
      AskedFirst(Step(s, es[0]), es[1..], t);
    }
  }

  lemma {:induction false} ReachesConcat(s: Link, a: seq<Event>, b: seq<Event>, t: Link) returns (m: Link)
    requires Reaches(s, a + b, t)
    ensures Reaches(s, a, m) && Reaches(m, b, t)
    decreases |a|
  {
    if a == [] {
      m := s;
      assert a + b == b;
    } else {
      assert (a + b)[1..] == a[1..] + b;
      m := ReachesConcat(Step(s, a[0]), a[1..], b, t);
    }
  }

  /** A shutdown is decided once and for all when it is first asked for, after the events `before`: whatever
      happens later, the read side has been shut down if and only if every byte was on the wire by then, or bytes
      were left behind. One that is asked for while bytes wait is lost, even when all of them get out. */
  lemma ShutdownDecidedAtOnce(before: seq<Event>, after: seq<Event>, t: Link)
    requires Reaches(OPEN_LINK, before + ([Shutdown] + after), t) && Failures(before) == 0
    requires forall e | e in before :: !e.Shutdown?
    ensures exists m :: Reaches(OPEN_LINK, before, m)
                     && (t.shut <==> m.wire == m.submitted || LeftBehind(OPEN_LINK, before))
  {
    var m := ReachesConcat(OPEN_LINK, before, [Shutdown] + after, t);
    assert ([Shutdown] + after)[1..] == after;
    AskedFirst(OPEN_LINK, before, m);
    ShutdownExactly(before, m);
    InterestExactly(before, m);
    ConservedExactly(before, m);
    AskedFirst(Step(m, Shutdown), after, t);
    assert m.queue == "" ==> m.wire + m.queue == m.wire;
  }

  /** Here the only byte still queued gets out after the shutdown was asked for, and the socket stays open. */
  lemma ShutdownLostExample()
    ensures var es := [Send("ab", 1), Shutdown, Writable(1), Shutdown];
      exists t :: Reaches(OPEN_LINK, es, t) && !t.shut && t.asked && t.wire == t.submitted == "ab" && t.queue == ""
  {
    var es := [Send("ab", 1), Shutdown, Writable(1), Shutdown];
    var t1 := Step(OPEN_LINK, es[0]);
    var t2 := Step(t1, Shutdown);
    var t3 := Step(t2, Writable(1));
    assert t1.queue == "b" && t1.wire == "" + "a" == "a";
    assert t3.queue == "" && t3.wire == "a" + "b" == "ab";
    assert es[1..] == [Shutdown, Writable(1), Shutdown] && es[1..][1..] == [Writable(1), Shutdown];
    assert es[1..][1..][1..] == [Shutdown];
    assert Reaches(t3, [], t3) && Reaches(t3, [Shutdown], t3) && Reaches(t2, [Writable(1), Shutdown], t3);
    assert Reaches(t1, [Shutdown, Writable(1), Shutdown], t3);
  }

  /** Disabling leaves bytes behind: here one of the two is still queued when the read side is shut down. */
  lemma ShutdownAfterDisableExample()
    ensures var es := [Send("ab", 1), Disable, Shutdown];
      exists t :: Reaches(OPEN_LINK, es, t) && t.shut && t.wire == "a" && t.submitted == "ab"
  {
  }

  /** End of file and room to write in one dispatch: the late write empties the queue, and nothing is left
      behind. */
  lemma LateWriteExample()
    ensures var es := [Send("ab", 1), Disable, Writable(1)];
      !LeftBehind(OPEN_LINK, es) && LeftBehind(OPEN_LINK, es[..2])
      && exists t :: Reaches(OPEN_LINK, es, t) && !t.writing && t.queue == "" && t.wire == t.submitted == "ab"
  {
    var es := [Send("ab", 1), Disable, Writable(1)];
    var t1 := Step(OPEN_LINK, es[0]);
    var t2 := Step(t1, Disable);
    var t3 := Step(t2, Writable(1));
    assert t1.queue == "b" && t1.wire == "" + "a" == "a" && t3.wire == "a" + "b" == "ab";
    assert es[1..] == [Disable, Writable(1)] && es[1..][1..] == [Writable(1)];
    assert es[..2][1..] == [Disable] && es[..2][1..][1..] == [];
    assert Reaches(t3, [], t3) && Reaches(t2, [Writable(1)], t3) && Reaches(t1, [Disable, Writable(1)], t3);
    assert LeftBehind(t1, [Disable]) && Reaches(OPEN_LINK, es, t3);
    InterestExactly(es, t3);
  }

  class TcpConnect {
    const outbuffer: Buffer
    var writing: bool
    var connected: bool
    var shut: bool
    ghost var wire: string
    ghost var submitted: string

    ghost predicate Valid()
      reads this, outbuffer, outbuffer.buffer
    {
      outbuffer.Valid()
    }

    ghost function View(): Link
      requires Valid()
      reads this, outbuffer, outbuffer.buffer
    {
      Link(outbuffer.Contents(), writing, wire, submitted, !connected, shut, false)
    }

    constructor (len: nat)
      ensures Valid() && View() == OPEN_LINK && fresh(outbuffer) && fresh(outbuffer.buffer)
    {
      outbuffer := new Buffer(len);
      writing, connected, shut, wire, submitted := false, true, false, "", "";
    }

    /** `aborted` answers whether the assertion on a failed direct write stops the program. */
    method SendInLoop(data: string, n: int) returns (aborted: bool)
      requires Valid() && -1 <= n <= |data|
      modifies this, outbuffer, outbuffer.buffer
      ensures Valid() && View().(aborted := aborted) == Step(old(View()), Send(data, n))
    {
      var hasWriteSize := 0;
      if !writing && outbuffer.ReadSize() == 0 {
        assert outbuffer.Contents() == "";
        hasWriteSize := n;
      }
      aborted := hasWriteSize < 0;
      if !aborted {
        ghost var queued := outbuffer.Contents();
        wire := wire + data[..hasWriteSize];
        submitted := submitted + data;
        if hasWriteSize < |data| {
          outbuffer.Append(data[hasWriteSize..]);
          if !writing {
            writing := true;
          }
        }
        assert outbuffer.Contents() == queued + data[hasWriteSize..];
      }
    }

    /** A write event with result `n`, with write interest on or just switched off. A failed write at read
        cursor 0 moves the cursor out of the buffer. */
    method HandleWrite(n: int)
      requires Valid() && -1 <= n <= outbuffer.ReadSize()
      modifies this, outbuffer`readIndex, outbuffer`peak
      ensures n >= 0 ==> Valid() && View() == Wrote(old(View()), n)
      ensures n == -1 ==> (Valid() <==> old(outbuffer.readIndex) > 0)
      ensures n == -1 && old(outbuffer.readIndex) > 0 ==>
        View() == old(View()).(queue := [outbuffer.buffer[old(outbuffer.readIndex) - 1]] + old(View()).queue)
    {
      ghost var queued := outbuffer.Contents();
      outbuffer.Write(n);
      if n > 0 {
        if outbuffer.ReadSize() == 0 {
          writing := false;
        }
      }
      wire := wire + if n > 0 then queued[..n] else "";
      assert n >= 0 ==> |outbuffer.Contents()| == |queued| - n;
    }

    /** Only the first shutdown goes on to shutdownloop, which may find the connection writing. */
    method Shutdown()
      requires Valid()
      modifies `connected, `shut
      ensures Valid() && View() == Step(old(View()), Event.Shutdown)
    {
      if connected {
        connected := false;
        ShutdownLoop();
      }
    }

    method ShutdownLoop()
      requires Valid()
      modifies `shut
      ensures Valid() && View() == old(View()).(shut := old(View()).shut || !old(View()).writing)
    {
      if !writing {
        shut := true;
      }
    }

    method DisableAll()
      requires Valid()
      modifies `writing
      ensures Valid() && View() == Step(old(View()), Disable)
    {
      writing := false;
    }
  }
}
