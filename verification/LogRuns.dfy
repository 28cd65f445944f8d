/** What holds over every run of the log ring, and exactly when it stops holding. */
module LogRuns {
  import opened Bytes
  import opened LogRing

  lemma PutLineArc(g: Config, q: Ring, line: string)
    requires ArcInv(g, q) && Fits(q, line) && q.cells[q.cur].status.Free?
    ensures ArcInv(g, PutLine(q, line)) && PutLine(q, line).accepted == q.accepted + line
  {
    JoinGrows(q.cells, q.cur, Put(q.cells[q.cur], line), line);
  }

  lemma MarkFullJoin(q: Ring)
    requires Shaped(q)
    ensures Join(MarkFull(q).cells) == Join(q.cells)
  {
    JoinIgnoresStatus(MarkFull(q).cells, q.cells);
  }

  /** The current buffer is full and the next one is empty: move on. */
  lemma MoveOnArc(g: Config, q: Ring)
    requires ArcInv(g, q) && q.cells[q.cur].status.Free? && q.cur + 1 < |q.cells|
    ensures ArcInv(g, MoveOn(MarkFull(q))) && Blank(MoveOn(MarkFull(q)).cells[q.cur + 1])
  {
    MarkFullJoin(q);
  }

  /** Every other buffer is full and the memory limit is reached: all are full now. */
  lemma WrapArc(g: Config, q: Ring)
    requires ArcInv(g, q) && q.cells[q.cur].status.Free? && q.cur + 1 == |q.cells| && TooBig(g, q)
    ensures ArcInv(g, MoveOn(MarkFull(q)))
  {
    MarkFullJoin(q);
  }

  /** Every other buffer is full and there is memory: the new buffer goes to the end. */
  lemma SpliceArc(g: Config, q: Ring, raw: string)
    requires ArcInv(g, q) && q.cells[q.cur].status.Free? && q.cur + 1 == |q.cells| && !TooBig(g, q) && |raw| == g.cap
    ensures ArcInv(g, Splice(MarkFull(q), raw)) && Splice(MarkFull(q), raw).cells[q.cur + 1] == NewCell(raw)
  {
    var m := MarkFull(q);
    MarkFullJoin(q);
    assert Splice(m, raw).cells == m.cells + [NewCell(raw)];
    JoinConcat(m.cells, [NewCell(raw)]);
    JoinEmpty([NewCell(raw)]);
  }

  lemma OverflowArc(g: Config, q: Ring, line: string, sec: int, raw: string)
    requires ArcInv(g, q) && q.cells[q.cur].status.Free? && q.lastDrop == 0
    requires 0 < |line| <= g.cap && sec > 0 && |raw| == g.cap
    ensures ArcInv(g, Overflow(g, q, line, sec, raw))
    ensures Overflow(g, q, line, sec, raw).accepted
         == q.accepted + if q.cur + 1 == |q.cells| && TooBig(g, q) then "" else line
    ensures Overflow(g, q, line, sec, raw).lastDrop == if q.cur + 1 == |q.cells| && TooBig(g, q) then sec else 0
  {
    if q.cur + 1 < |q.cells| {
      MoveOnArc(g, q);
      PutLineArc(g, MoveOn(MarkFull(q)), line);
    } else if TooBig(g, q) {
      WrapArc(g, q);
      assert q.accepted + "" == q.accepted;
    } else {
      SpliceArc(g, q, raw);
      PutLineArc(g, Splice(MarkFull(q), raw), line);
    }
  }

  /** The line is accepted, unless the drop rules say otherwise. */
  lemma AppendArc(g: Config, q: Ring, line: string, sec: int, raw: string)
    requires ArcInv(g, q) && 0 < |line| <= g.cap && sec > 0 && |raw| == g.cap
    ensures ArcInv(g, AppendStep(g, q, line, sec, raw))
    ensures AppendStep(g, q, line, sec, raw).accepted
         == q.accepted + if RateLimited(q, sec) || NoRoom(g, q, line) then "" else line
    ensures AppendStep(g, q, line, sec, raw).lastDrop
         == if RateLimited(q, sec) then q.lastDrop else if NoRoom(g, q, line) then sec else 0
  {
    var q0 := q.(lastDrop := 0);
    assert q.accepted + "" == q.accepted;
    if !RateLimited(q, sec) && q.cells[q.cur].status.Free? {
      if Fits(q, line) {
        PutLineArc(g, q0, line);
      } else {
        OverflowArc(g, q0, line, sec, raw);
      }
    }
  }

  /** Every buffer but the current one is full, one more would be too many, and the line does not fit. */
  predicate NoRoom(g: Config, q: Ring, line: string)
    requires Shaped(q)
  {
    q.cells[q.cur].status.Full? || (!Fits(q, line) && q.cur + 1 == |q.cells| && TooBig(g, q))
  }

  lemma RotateAt(r: Ring)
    requires Shaped(r)
    ensures var q := Rotate(r);
      Shaped(q) && q.cells[q.cur] == r.cells[r.cur]
      && q.cells[Next(q.cur, |q.cells|)] == r.cells[Next(r.cur, |r.cells|)]
  {
  }

  lemma RotateMarkFull(r: Ring)
    requires Shaped(r)
    ensures Rotate(MarkFull(r)) == MarkFull(Rotate(r))
  {
  }

  lemma RotatePutLine(r: Ring, line: string)
    requires Shaped(r)
    ensures Rotate(PutLine(r, line)) == PutLine(Rotate(r), line)
  {
  }

  lemma RotateMove(r: Ring)
    requires Shaped(r)
    ensures Rotate(MoveOn(r)) == MoveOn(Rotate(r))
  {
  }

  /** Away from a splice, appending in the order of the links is appending in the consumer's order. */
  lemma RotateAppend(g: Config, r: Ring, line: string, sec: int, raw: string)
    requires r.phase.Cleared? && Enabled(g, r, Append(line, sec, raw)) && !BadSplice(g, r, Append(line, sec, raw))
    ensures Rotate(AppendStep(g, r, line, sec, raw)) == AppendStep(g, Rotate(r), line, sec, raw)
  {
    var r0 := r.(lastDrop := 0);
    RotateAt(r);
    assert Rotate(r0) == Rotate(r).(lastDrop := 0);
    if !RateLimited(r, sec) && r.cells[r.cur].status.Free? {
      if Fits(r, line) {
        RotatePutLine(r0, line);
      } else {
        RotateOverflow(g, r0, line, sec, raw);
      }
    }
  }

  /** Without a splice the overflow is a move to the next buffer. */
  lemma OverflowIsMove(g: Config, r: Ring, line: string, sec: int, raw: string)
    requires Shaped(r) && r.lastDrop == 0 && sec > 0 && (NextIsFull(r) ==> TooBig(g, r))
    ensures Overflow(g, r, line, sec, raw) ==
      var m := MoveOn(MarkFull(r)); if NextIsFull(r) then m.(lastDrop := sec) else PutLine(m, line)
  {
  }

  lemma RotateOverflow(g: Config, r: Ring, line: string, sec: int, raw: string)
    requires Shaped(r) && r.lastDrop == 0 && sec > 0 && (NextIsFull(r) ==> TooBig(g, r))
    ensures Rotate(Overflow(g, r, line, sec, raw)) == Overflow(g, Rotate(r), line, sec, raw)
  {
    var m := MarkFull(r);
    OverflowIsMove(g, r, line, sec, raw);
    RotateMarkFull(r);
    RotateMove(m);
    RotateAt(r);
    RotatePutLine(MoveOn(m), line);
    OverflowIsMove(g, Rotate(r), line, sec, raw);
  }

  lemma OpenNoneHollow(g: Config, r: Ring, sec: int, raw: string)
    requires Shaped(r) && NoneHollow(r) && r.cells[r.cur].bytes != ""
    ensures NoneHollow(Open(g, r, sec, raw))
  {
    var m := MarkFull(r);
    assert NoneHollow(m);
    var s := Splice(m, raw);
    assert forall i | r.cur + 1 < i < |s.cells| :: s.cells[i] == m.cells[i - 1];
    assert NoneHollow(s);
  }

  lemma PutNoneHollow(r: Ring, line: string)
    requires Shaped(r) && NoneHollow(r)
    ensures NoneHollow(PutLine(r, line))
  {
  }

  lemma AppendNoneHollow(g: Config, r: Ring, line: string, sec: int, raw: string)
    requires Enabled(g, r, Append(line, sec, raw)) && NoneHollow(r)
    requires |r.cells[r.cur].bytes| + |r.cells[r.cur].tail| == g.cap
    ensures NoneHollow(AppendStep(g, r, line, sec, raw))
  {
    var r0 := r.(lastDrop := 0);
    PutNoneHollow(r0, line);
    if !Fits(r, line) {
      OpenNoneHollow(g, r0, sec, raw);
      PutNoneHollow(Open(g, r0, sec, raw), line);
    }
  }

  lemma AppendKeeps(g: Config, r: Ring, line: string, sec: int, raw: string)
    requires Inv(g, r) && Enabled(g, r, Append(line, sec, raw)) && !BadSplice(g, r, Append(line, sec, raw))
    ensures Inv(g, Step(g, r, Append(line, sec, raw)))
  {
    AppendInOrder(g, r, line, sec, raw);
    AppendNoneHollow(g, r, line, sec, raw);
    if r.phase.Writing? {
      AppendKeepsFirstFull(g, r, line, sec, raw);
    }
  }

  lemma PhaseStays(g: Config, r: Ring, line: string, sec: int, raw: string)
    requires Shaped(r)
    ensures AppendStep(g, r, line, sec, raw).phase == r.phase && Shaped(AppendStep(g, r, line, sec, raw))
  {
  }

  lemma AppendInOrder(g: Config, r: Ring, line: string, sec: int, raw: string)
    requires Enabled(g, r, Append(line, sec, raw)) && !BadSplice(g, r, Append(line, sec, raw)) && ArcInv(g, InOrder(r))
    ensures Shaped(AppendStep(g, r, line, sec, raw)) && ArcInv(g, InOrder(AppendStep(g, r, line, sec, raw)))
  {
    AppendArc(g, InOrder(r), line, sec, raw);
    PhaseStays(g, r, line, sec, raw);
    if r.phase.Cleared? {
      RotateAppend(g, r, line, sec, raw);
      assert InOrder(AppendStep(g, r, line, sec, raw)) == AppendStep(g, InOrder(r), line, sec, raw);
    }
  }

  lemma OpenKeepsFirst(g: Config, r: Ring, sec: int, raw: string)
    requires Shaped(r) && r.cells[0].status.Full?
    ensures Open(g, r, sec, raw).cells[0].status.Full?
  {
  }

  lemma AppendKeepsFirstFull(g: Config, r: Ring, line: string, sec: int, raw: string)
    requires Enabled(g, r, Append(line, sec, raw)) && r.cells[0].status.Full?
    ensures AppendStep(g, r, line, sec, raw).cells[0].status.Full?
  {
    OpenKeepsFirst(g, r.(lastDrop := 0), sec, raw);
  }

  lemma TakeKeeps(g: Config, r: Ring)
    requires Inv(g, r) && Enabled(g, r, Take)
    ensures Inv(g, Step(g, r, Take))
  {
    if r.cells[0].status.Free? {
      MoveOnArc(g, r);
    }
  }

  lemma ClearArc(g: Config, r: Ring)
    requires Shaped(r) && Arc(g, r) && r.cells[0].status.Full?
    ensures Arc(g, Rotate(r.(cells := r.cells[0 := Clear(r.cells[0])])))
  {
  }

  lemma ClearJoin(cells: seq<Cell>)
    requires cells != []
    ensures Join(cells) == cells[0].bytes + Join(cells[1..] + [Clear(cells[0])])
  {
    JoinConcat(cells[1..], [Clear(cells[0])]);
    JoinEmpty([Clear(cells[0])]);
  }

  /** Clearing the first buffer leaves an arc, and takes its bytes from the front of what is pending. */
  lemma PersistArc(g: Config, r: Ring)
    requires Inv(g, r) && r.phase.Writing?
    ensures var v := Step(g, r, Persist);
      Arc(g, Rotate(v)) && r.accepted == r.written + r.cells[0].bytes + Pending(v) && Pending(v) == Join(Rotate(v).cells)
  {
    var v := Step(g, r, Persist);
    ClearArc(g, r);
    ArcOnly(g, Rotate(r.(cells := v.cells)), Rotate(v));
    PendingIsAll(g, v);
    PendingIsAll(g, r);
    ClearJoin(r.cells);
    assert Rotate(v).cells == r.cells[1..] + [Clear(r.cells[0])];
  }

  lemma ArcOnly(g: Config, q: Ring, p: Ring)
    requires Shaped(q) && Shaped(p) && q.cells == p.cells && q.cur == p.cur && Arc(g, q)
    ensures Arc(g, p)
  {
  }

  /** The buffer's own bytes are streamed if and only if the operator stops right behind them. */
  lemma StreamsExactly(c: Cell)
    ensures Streamed(c) == Some(c.bytes) <==> StreamsOwn(c)
  {
    var data := c.bytes + c.tail;
    CStringExactly(data, |c.bytes|);
    assert data[..|c.bytes|] == c.bytes;
  }

  lemma PersistKeeps(g: Config, r: Ring)
    requires Inv(g, r) && r.phase.Writing? && StreamsOwn(r.cells[0])
    ensures Inv(g, Step(g, r, Persist))
  {
    StreamsExactly(r.cells[0]);
    PersistArc(g, r);
  }

  lemma AdvanceKeeps(g: Config, r: Ring)
    requires Inv(g, r) && r.phase.Cleared?
    ensures Inv(g, Step(g, r, Advance))
  {
    var v := Step(g, r, Advance);
    assert v == Rotate(r).(phase := Waiting);
    assert forall i | 0 <= i < |v.cells| - 1 :: v.cells[i] == r.cells[i + 1];
  }

  lemma StepKeeps(g: Config, r: Ring, e: Event)
    requires Inv(g, r) && Enabled(g, r, e) && !Breaks(g, r, e)
    ensures Inv(g, Step(g, r, e))
  {
    match e
    case Append(line, sec, raw) => AppendKeeps(g, r, line, sec, raw);
    case Take => TakeKeeps(g, r);
    case FileFails => FileFailsKeeps(g, r);
    case Persist => PersistKeeps(g, r);
    case Advance => AdvanceKeeps(g, r);
  }

  lemma FileFailsKeeps(g: Config, r: Ring)
    requires Inv(g, r) && r.phase.Writing?
    ensures Inv(g, Step(g, r, FileFails))
  {
  }

  /** The new buffer lands before the full ones, so the consumer skips them. */
  lemma BadSpliceBreaks(g: Config, r: Ring, e: Event)
    requires Inv(g, r) && BadSplice(g, r, e)
    ensures !Ordered(Step(g, r, e))
  {
    BadSpliceAtStart(g, r, e);
    PendingIsAll(g, r);
    var q, v := InOrder(r), Step(g, r, e);
    assert q.cells[0] == r.cells[1];
    assert |Join(q.cells)| >= |q.cells[0].bytes| > 0;
    SplicedPending(g, r, e);
    assert |v.accepted| == |r.written| + |Join(q.cells)| + |e.line|;
  }

  lemma BadSpliceAtStart(g: Config, r: Ring, e: Event)
    requires BadSplice(g, r, e) && ArcInv(g, InOrder(r))
    ensures r.cur == 0 && r.cells[1].status.Full?
  {
    RotateAt(r);
    FullNextIsFirst(g, InOrder(r));
  }

  lemma FullNextIsFirst(g: Config, q: Ring)
    requires ArcInv(g, q) && q.cells[q.cur].status.Free? && q.cells[Next(q.cur, |q.cells|)].status.Full?
    ensures q.cur + 1 == |q.cells|
  {
  }

  lemma SplicedPending(g: Config, r: Ring, e: Event)
    requires BadSplice(g, r, e) && r.cur == 0
    ensures var v := Step(g, r, e); Pending(v) == e.line && v.accepted == r.accepted + e.line && v.written == r.written
  {
    var v := Step(g, r, e);
    var c := Put(NewCell(e.raw), e.line);
    assert v.cells[1] == c && v.cur == 1;
    assert InOrder(v).cells[..1] == [c];
    assert Join([c]) == c.bytes + Join([]);
  }

  lemma MiddleSame(a: string, x: string, y: string, c: string)
    requires a + x + c == a + y + c
    ensures x == y
  {
    assert x == (a + x + c)[|a|..|a| + |x|];
    assert y == (a + y + c)[|a|..|a| + |y|];
  }

  /** Writing a buffer out keeps the log in order if and only if it is streamed as its own bytes. */
  lemma PersistOrdered(g: Config, r: Ring)
    requires Inv(g, r) && r.phase.Writing?
    ensures Ordered(Step(g, r, Persist)) <==> StreamsOwn(r.cells[0])
  {
    StreamsExactly(r.cells[0]);
    PersistArc(g, r);
    var c, v := r.cells[0], Step(g, r, Persist);
    if Ordered(v) {
      MiddleSame(r.written, Streamed(c).value, c.bytes, Pending(v));
    }
  }

  ghost predicate IsRun(g: Config, rs: seq<Ring>, es: seq<Event>) {
    && |rs| == |es| + 1 && IsStart(g, rs[0]) && g.cap > 0
    && forall i | 0 <= i < |es| :: Enabled(g, rs[i], es[i]) && rs[i + 1] == Step(g, rs[i], es[i])
  }

  lemma StartInv(g: Config, r: Ring)
    requires g.cap > 0 && IsStart(g, r)
    ensures Inv(g, r)
  {
    JoinEmpty(r.cells);
  }

  lemma {:induction false} InvUntilBreak(g: Config, rs: seq<Ring>, es: seq<Event>, i: nat)
    requires IsRun(g, rs, es) && i < |rs| && forall j | 0 <= j < i :: !Breaks(g, rs[j], es[j])
    ensures Inv(g, rs[i])
  {
    if i == 0 {
      StartInv(g, rs[0]);
    } else {
      InvUntilBreak(g, rs, es, i - 1);
      StepKeeps(g, rs[i - 1], es[i - 1]);
    }
  }

  /** Over any run of producers and consumer: at every moment the file followed by the buffers still to be
      written is exactly the accepted lines in order, if and only if the run neither links a buffer in
      between the consumer's clear and its advance, nor writes out a buffer that has a NUL among its bytes
      or none right behind them. */
  lemma OrderedExactly(g: Config, rs: seq<Ring>, es: seq<Event>)
    requires IsRun(g, rs, es)
    ensures (forall i | 0 <= i < |rs| :: Ordered(rs[i])) <==> (forall i | 0 <= i < |es| :: !Breaks(g, rs[i], es[i]))
  {
    if forall i | 0 <= i < |es| :: !Breaks(g, rs[i], es[i]) {
      forall i | 0 <= i < |rs| ensures Ordered(rs[i]) {
        InvUntilBreak(g, rs, es, i);
        InvOrdered(g, rs[i]);
      }
    } else {
      var b := FirstBreak(g, rs, es, 0);
      InvUntilBreak(g, rs, es, b);
      if BadSplice(g, rs[b], es[b]) {
        BadSpliceBreaks(g, rs[b], es[b]);
      } else {
        PersistOrdered(g, rs[b]);
      }
      assert !Ordered(rs[b + 1]);
    }
  }

  lemma FirstBreak(g: Config, rs: seq<Ring>, es: seq<Event>, from: nat) returns (b: nat)
    requires IsRun(g, rs, es) && from <= |es|
    requires forall i | 0 <= i < from :: !Breaks(g, rs[i], es[i])
    requires exists i :: 0 <= i < |es| && Breaks(g, rs[i], es[i])
    ensures b < |es| && Breaks(g, rs[b], es[b]) && forall i | 0 <= i < b :: !Breaks(g, rs[i], es[i])
    decreases |es| - from
  {
    if from < |es| && Breaks(g, rs[from], es[from]) {
      b := from;
    } else {
      b := FirstBreak(g, rs, es, from + 1);
    }
  }

  /** A line is dropped exactly within five seconds after a drop, in unsigned 64-bit arithmetic, or when no
      buffer is left for it: every other one is full, it does not fit into the current one, and one more would
      exceed the limit. A drop for want of a buffer starts the five seconds, an accepted line ends them. */
  lemma DropsExactly(g: Config, r: Ring, line: string, sec: int, raw: string)
    requires Inv(g, r) && Enabled(g, r, Append(line, sec, raw)) && !BadSplice(g, r, Append(line, sec, raw))
    ensures var v := Step(g, r, Append(line, sec, raw));
      var limited := r.lastDrop != 0 && (sec - r.lastDrop) % 0x1_0000_0000_0000_0000 < 5;
      var noRoom := g.cap * (|r.cells| + 1) > g.limit && OthersAreFull(r)
                    && (r.cells[r.cur].status.Full? || |r.cells[r.cur].bytes| + |line| > g.cap);
      && v.accepted == r.accepted + (if limited || noRoom then "" else line)
      && v.lastDrop == if limited then r.lastDrop else if noRoom then sec else 0
  {
    var q := InOrder(r);
    AppendArc(g, q, line, sec, raw);
    NoRoomExactly(g, q, line);
    assert |q.accepted + line| > |q.accepted|;
    if r.phase.Cleared? {
      RotateAppend(g, r, line, sec, raw);
      RotateAt(r);
      OthersFull(r);
    }
    SizeOfCurrent(g, r);
  }

  lemma SizeOfCurrent(g: Config, r: Ring)
    requires Inv(g, r)
    ensures |r.cells[r.cur].bytes| + |r.cells[r.cur].tail| == g.cap
  {
    RotateAt(r);
  }

  predicate OthersAreFull(r: Ring) {
    forall i | 0 <= i < |r.cells| && i != r.cur :: r.cells[i].status.Full?
  }

  lemma NoRoomExactly(g: Config, q: Ring, line: string)
    requires ArcInv(g, q)
    ensures NoRoom(g, q, line)
       <==> TooBig(g, q) && OthersAreFull(q) && (q.cells[q.cur].status.Full? || !Fits(q, line))
  {
    assert q.cells[q.cur].status.Free? && q.cur + 1 < |q.cells| ==> Blank(q.cells[q.cur + 1]);
  }

  lemma OthersFull(r: Ring)
    requires Shaped(r)
    ensures OthersAreFull(Rotate(r)) <==> OthersAreFull(r)
  {
    var n, q := |r.cells|, Rotate(r);
    assert forall i | 0 <= i < n - 1 :: q.cells[i] == r.cells[i + 1];
    assert forall i | 0 < i < n :: r.cells[i] == q.cells[i - 1];
    assert q.cells[n - 1] == r.cells[0];
  }

  /** The memory behind a buffer's bytes: what earlier lines have left there, then what was there at first. */
  predicate Kept(c: Cell) {
    && |c.raw| == |c.bytes| + |c.tail| && |c.bytes| <= c.high <= |c.raw|
    && c.tail[c.high - |c.bytes|..] == c.raw[c.high..] && '\0' !in c.bytes
    && '\0' !in c.tail[..c.high - |c.bytes|]
  }

  /** Filled as far as it has ever been, with room left and a NUL there from the start. */
  predicate AtMark(c: Cell) {
    |c.bytes| == c.high < |c.raw| && c.raw[c.high] == '\0'
  }

  lemma MarkExactly(c: Cell)
    requires Kept(c)
    ensures StreamsOwn(c) <==> AtMark(c)
  {
    var stale := c.tail[..c.high - |c.bytes|];
    assert c.tail == stale + c.raw[c.high..];
    assert stale != "" ==> stale[0] in stale && stale[0] == c.tail[0];
  }

  lemma PutKept(c: Cell, line: string)
    requires Kept(c) && |line| <= |c.tail| && '\0' !in line
    ensures Kept(Put(c, line))
  {
    var d, n := Put(c, line), c.high - |c.bytes|;
    if |line| <= n {
      assert d.tail[d.high - |d.bytes|..] == c.tail[n..];
      assert d.tail[..d.high - |d.bytes|] == c.tail[..n][|line|..];
    } else {
      assert d.tail == c.tail[n..][|line| - n..] == c.raw[d.high..];
    }
  }

  lemma ClearKept(c: Cell)
    requires Kept(c)
    ensures Kept(Clear(c))
  {
    var d, n := Clear(c), c.high - |c.bytes|;
    assert d.tail[d.high..] == c.tail[n..];
    assert d.tail[..d.high] == c.bytes + c.tail[..n];
  }

  predicate AllKept(r: Ring) {
    forall i | 0 <= i < |r.cells| :: Kept(r.cells[i])
  }

  predicate CleanEvent(e: Event) { e.Append? ==> '\0' !in e.line }

  lemma LineKept(r: Ring, line: string)
    requires Shaped(r) && AllKept(r) && '\0' !in line
    ensures AllKept(PutLine(r, line))
  {
    if Fits(r, line) {
      PutKept(r.cells[r.cur], line);
    }
  }

  lemma OpenKept(g: Config, r: Ring, sec: int, raw: string)
    requires Shaped(r) && AllKept(r)
    ensures AllKept(Open(g, r, sec, raw))
  {
    var m := MarkFull(r);
    assert AllKept(m);
    var s := Splice(m, raw);
    assert forall i | 0 <= i < |s.cells| :: s.cells[i] == NewCell(raw) || s.cells[i] in m.cells;
    assert AllKept(s);
  }

  lemma AppendKept(g: Config, r: Ring, line: string, sec: int, raw: string)
    requires Shaped(r) && AllKept(r) && '\0' !in line
    ensures AllKept(AppendStep(g, r, line, sec, raw))
  {
    var r0 := r.(lastDrop := 0);
    LineKept(r0, line);
    OpenKept(g, r0, sec, raw);
    LineKept(Open(g, r0, sec, raw), line);
  }

  lemma StepKept(g: Config, r: Ring, e: Event)
    requires Enabled(g, r, e) && AllKept(r) && CleanEvent(e)
    ensures AllKept(Step(g, r, e))
  {
    match e
    case Append(line, sec, raw) => AppendKept(g, r, line, sec, raw);
    case Take =>
    case FileFails =>
    case Persist => ClearKept(r.cells[0]);
    case Advance =>
  }

  lemma {:induction false} KeptAlways(g: Config, rs: seq<Ring>, es: seq<Event>, i: nat)
    requires IsRun(g, rs, es) && i < |rs| && forall e | e in es :: CleanEvent(e)
    ensures AllKept(rs[i])
  {
    if i > 0 {
      KeptAlways(g, rs, es, i - 1);
      StepKept(g, rs[i - 1], es[i - 1]);
    }
  }

  /** With lines free of NULs: the log is in order at every moment if and only if no buffer is linked in
      between clear and advance, and every buffer written out is below its capacity, filled as far as it
      has ever been, and was given to the logger with a NUL there. */
  lemma OrderedByMark(g: Config, rs: seq<Ring>, es: seq<Event>)
    requires IsRun(g, rs, es) && forall e | e in es :: CleanEvent(e)
    ensures (forall i | 0 <= i < |rs| :: Ordered(rs[i])) <==>
      (forall i | 0 <= i < |es| :: !BadSplice(g, rs[i], es[i]) && (es[i].Persist? ==> AtMark(rs[i].cells[0])))
  {
    OrderedExactly(g, rs, es);
    forall i | 0 <= i < |es| && es[i].Persist? ensures BadStream(rs[i], es[i]) <==> !AtMark(rs[i].cells[0]) {
      KeptAlways(g, rs, es, i);
      MarkExactly(rs[i].cells[0]);
    }
  }
}
