/** Two families of runs of the log ring that lose its order. */
module LogExamples {
  import opened Bytes
  import opened LogRing
  import opened LogRuns
  import opened Rlogs

  lemma ExtendRun(g: Config, rs: seq<Ring>, es: seq<Event>, e: Event) returns (rs': seq<Ring>, es': seq<Event>)
    requires IsRun(g, rs, es) && Enabled(g, rs[|es|], e)
    ensures rs' == rs + [Step(g, rs[|es|], e)] && es' == es + [e] && IsRun(g, rs', es')
  {
    rs', es' := rs + [Step(g, rs[|es|], e)], es + [e];
  }

  /** The program's ring grows to 102 buffers and no further. */
  lemma BuffersAtMost(rs: seq<Ring>, es: seq<Event>, i: nat)
    requires IsRun(RLOG_CONFIG, rs, es) && i < |rs|
    requires forall j | 0 <= j < i :: !Breaks(RLOG_CONFIG, rs[j], es[j])
    ensures 2 <= |rs[i].cells| <= 102 && (TooBig(RLOG_CONFIG, rs[i]) <==> |rs[i].cells| == 102)
  {
    InvUntilBreak(RLOG_CONFIG, rs, es, i);
  }

  function Zeros(n: nat): string { seq(n, _ => '\0') }

  /** A logger at rest: nothing in the buffers, consumer and producers at the same one. */
  predicate AtRest(r: Ring) {
    r.phase.Waiting? && r.cur == 0 && |r.cells| == 3 && forall i | 0 <= i < 3 :: Blank(r.cells[i])
  }

  /** What is left in the memory of the buffers is written again, buffer by buffer. */
  function Leftover(cells: seq<Cell>): string {
    if cells == [] then ""
    else (match Streamed(cells[0]) case Some(s) => s case None => "") + Leftover(cells[1..])
  }

  /** One timeout of the consumer: the empty buffer is marked, written, cleared and left. */
  lemma IdleStep(g: Config, rs: seq<Ring>, es: seq<Event>) returns (rs': seq<Ring>, es': seq<Event>)
    requires IsRun(g, rs, es) && AtRest(rs[|es|])
    requires forall i | 0 <= i < 3 :: Streamed(rs[|es|].cells[i]).Some?
    ensures IsRun(g, rs', es') && es' == es + [Take, Persist, Advance] && rs <= rs'
    ensures var r := rs[|es|];
      rs'[|es'|] == r.(cells := r.cells[1..] + [r.cells[0]], written := r.written + Streamed(r.cells[0]).value)
  {
    var r := rs[|es|];
    rs', es' := ExtendRun(g, rs, es, Take);
    var c := rs'[|es'|].cells[0];
    assert c == r.cells[0].(status := Full) && c.bytes + c.tail == r.cells[0].bytes + r.cells[0].tail;
    rs', es' := ExtendRun(g, rs', es', Persist);
    assert Clear(c) == r.cells[0] && rs'[|es'|].cells == r.cells;
    rs', es' := ExtendRun(g, rs', es', Advance);
  }

  /** Three timeouts bring a logger at rest back to where it was, but for what it has written again. */
  lemma IdleRound(g: Config, rs: seq<Ring>, es: seq<Event>) returns (rs': seq<Ring>, es': seq<Event>)
    requires IsRun(g, rs, es) && AtRest(rs[|es|])
    requires forall i | 0 <= i < 3 :: Streamed(rs[|es|].cells[i]).Some?
    ensures IsRun(g, rs', es') && rs <= rs' && |es'| == |es| + 9
    ensures es' == es + [Take, Persist, Advance] + [Take, Persist, Advance] + [Take, Persist, Advance]
    ensures rs'[|es'|] == rs[|es|].(written := rs[|es|].written + Leftover(rs[|es|].cells))
  {
    var r := rs[|es|];
    var a, b, c := r.cells[0], r.cells[1], r.cells[2];
    assert r.cells == [a, b, c];
    Turned(a, b, c);
    Turned(b, c, a);
    Turned(c, a, b);
    rs', es' := IdleStep(g, rs, es);
    rs', es' := IdleStep(g, rs', es');
    rs', es' := IdleStep(g, rs', es');
    LeftoverThree(a, b, c, r.written);
  }

  lemma Turned(a: Cell, b: Cell, c: Cell)
    ensures [a, b, c][1..] + [a] == [b, c, a]
  {
  }

  lemma LeftoverThree(a: Cell, b: Cell, c: Cell, written: string)
    requires Streamed(a).Some? && Streamed(b).Some? && Streamed(c).Some?
    ensures written + Streamed(a).value + Streamed(b).value + Streamed(c).value == written + Leftover([a, b, c])
  {
    assert [a, b, c][1..] == [b, c] && [b, c][1..] == [c] && [c][1..] == [];
    assert Leftover([c]) == Streamed(c).value + "";
  }

  function Times(line: string, n: nat): string {
    if n == 0 then "" else Times(line, n - 1) + line
  }

  lemma StreamsZeros(n: nat)
    requires n > 0
    ensures CString("" + Zeros(n)) == Some("")
  {
    assert "" + Zeros(n) == Zeros(n);
  }

  lemma StreamsLine(line: string, n: nat)
    requires '\0' !in line && n > 0
    ensures CString(line + Zeros(n)) == CString("" + (line + Zeros(n))) == Some(line)
  {
    var data := line + Zeros(n);
    assert "" + data == data && data[..|line|] == line;
    CStringExactly(data, |line|);
  }

  /** A logger that has written its one line out and is at rest; the line is still in the last buffer. */
  function Rested(cap: nat, line: string, written: string): Ring
    requires |line| <= cap
  {
    var unused := NewCell(Zeros(cap));
    Ring([unused, unused, Cell(Free, "", line + Zeros(cap - |line|), Zeros(cap), |line|)], 0, Waiting, 0, written, line, false)
  }

  lemma TakesLine(g: Config, line: string, sec: int) returns (rs: seq<Ring>, es: seq<Event>, c: Cell)
    requires 0 < |line| < g.cap && sec > 0
    ensures c == Cell(Full, line, Zeros(g.cap - |line|), Zeros(g.cap), |line|)
    ensures IsRun(g, rs, es) && es == [Append(line, sec, Zeros(g.cap)), Take]
    ensures var unused := NewCell(Zeros(g.cap)); rs[2] == Ring([c, unused, unused], 1, Writing, 0, "", line, false)
  {
    var unused := NewCell(Zeros(g.cap));
    c := Cell(Full, line, Zeros(g.cap - |line|), Zeros(g.cap), |line|);
    rs, es := [Ring([unused, unused, unused], 0, Waiting, 0, "", "", false)], [];
    rs, es := ExtendRun(g, rs, es, Append(line, sec, Zeros(g.cap)));
    assert "" + line == line && Put(unused, line) == c.(status := Free);
    assert rs[1].cells == [c.(status := Free), unused, unused];
    rs, es := ExtendRun(g, rs, es, Take);
    assert rs[2].cells == [c, unused, unused];
  }

  lemma RestsAfterLine(g: Config, line: string, sec: int) returns (rs: seq<Ring>, es: seq<Event>)
    requires 0 < |line| < g.cap && '\0' !in line && sec > 0
    ensures IsRun(g, rs, es) && es == [Append(line, sec, Zeros(g.cap)), Take, Persist, Advance]
    ensures rs[4] == Rested(g.cap, line, line)
  {
    var c;
    rs, es, c := TakesLine(g, line, sec);
    StreamsLine(line, g.cap - |line|);
    rs, es := ExtendRun(g, rs, es, Persist);
    assert "" + line == line;
    rs, es := ExtendRun(g, rs, es, Advance);
    assert rs[4].cells == Rested(g.cap, line, line).cells;
  }

  lemma RestsAgain(g: Config, rs: seq<Ring>, es: seq<Event>, line: string, written: string)
    returns (rs': seq<Ring>, es': seq<Event>)
    requires 0 < |line| < g.cap && '\0' !in line
    requires IsRun(g, rs, es) && rs[|es|] == Rested(g.cap, line, written)
    ensures IsRun(g, rs', es') && |es'| == |es| + 9 && es <= es'
    ensures rs'[|es'|] == Rested(g.cap, line, written + line)
    ensures forall i | |es| <= i < |es'| :: !es'[i].Append?
  {
    var r := rs[|es|];
    StreamsZeros(g.cap);
    StreamsLine(line, g.cap - |line|);
    LeftoverLine(r.cells, line);
    rs', es' := IdleRound(g, rs, es);
  }

  /** One line, logged once into zeroed buffers: an idle logger writes it again with every third timeout, for
      ever. No buffer is ever linked in, and no line holds a NUL. */
  lemma {:induction false} IdleRepeats(g: Config, line: string, sec: int, n: nat) returns (rs: seq<Ring>, es: seq<Event>)
    requires 0 < |line| < g.cap && '\0' !in line && sec > 0
    ensures IsRun(g, rs, es) && |es| == 4 + 9 * n && rs[|es|] == Rested(g.cap, line, line + Times(line, n))
    ensures es[0] == Append(line, sec, Zeros(g.cap)) && forall i | 0 < i < |es| :: !es[i].Append?
    decreases n
  {
    if n == 0 {
      rs, es := RestsAfterLine(g, line, sec);
      assert line + Times(line, 0) == line;
    } else {
      rs, es := IdleRepeats(g, line, sec, n - 1);
      rs, es := RestsAgain(g, rs, es, line, line + Times(line, n - 1));
      assert line + Times(line, n - 1) + line == line + Times(line, n);
    }
  }

  /** Out of order from the first repetition on. */
  lemma RepeatedIsNotOrdered(cap: nat, line: string, n: nat)
    requires 0 < |line| < cap && n > 0
    ensures !Ordered(Rested(cap, line, line + Times(line, n)))
  {
    assert |line + Times(line, n)| == |line| + |Times(line, n - 1)| + |line|;
  }

  lemma LeftoverLine(cells: seq<Cell>, line: string)
    requires |cells| == 3 && Streamed(cells[0]) == Streamed(cells[1]) == Some("") && Streamed(cells[2]) == Some(line)
    ensures Leftover(cells) == line
  {
    LeftoverThree(cells[0], cells[1], cells[2], "");
    assert cells == [cells[0], cells[1], cells[2]];
    assert "" + "" + "" + line == line && "" + Leftover(cells) == Leftover(cells);
  }

  /** The bad splice, for every size of buffer and every limit that leaves room for a fourth one. All lines are
      of one byte. */
  predicate Short(es: seq<Event>) {
    forall e | e in es && e.Append? :: |e.line| == 1
  }

  function Lines(n: nat): string { seq(n, _ => 'a') }

  /** A new zeroed buffer with `n` such lines in it. */
  function Holding(cap: nat, status: Status, n: nat): Cell
    requires n <= cap
  {
    Cell(status, Lines(n), Zeros(cap - n), Zeros(cap), n)
  }

  lemma HoldsMore(cap: nat, n: nat)
    requires n < cap
    ensures Put(Holding(cap, Free, n), "a") == Holding(cap, Free, n + 1)
    ensures Holding(cap, Free, 0) == NewCell(Zeros(cap))
  {
    assert Lines(n) + "a" == Lines(n + 1) && Zeros(cap - n)[1..] == Zeros(cap - n - 1);
  }

  /** The cleared ring before the consumer's advance, with the producers in one of its buffers. */
  function Refilling(cells: seq<Cell>, cur: nat, accepted: string): Ring {
    Ring(cells, cur, Cleared, 0, "", accepted, false)
  }

  /** Fills the current buffer up. */
  lemma {:induction false} Fill(
    g: Config, rs: seq<Ring>, es: seq<Event>, cells: seq<Cell>, cur: nat, n: nat, accepted: string)
    returns (rs': seq<Ring>, es': seq<Event>)
    requires IsRun(g, rs, es) && Short(es) && rs[|es|] == Refilling(cells, cur, accepted)
    requires |cells| == 3 && cur < 3 && n <= g.cap && cells[cur] == Holding(g.cap, Free, n)
    ensures IsRun(g, rs', es') && Short(es')
    ensures rs'[|es'|] == Refilling(cells[cur := Holding(g.cap, Free, g.cap)], cur, accepted + Lines(g.cap - n))
    decreases g.cap - n
  {
    if n == g.cap {
      rs', es' := rs, es;
      assert cells[cur := cells[cur]] == cells && accepted + Lines(0) == accepted;
    } else {
      HoldsMore(g.cap, n);
      rs', es' := ExtendRun(g, rs, es, Append("a", 1, Zeros(g.cap)));
      var next := cells[cur := Holding(g.cap, Free, n + 1)];
      rs', es' := Fill(g, rs', es', next, cur, n + 1, accepted + "a");
      assert next[cur := Holding(g.cap, Free, g.cap)] == cells[cur := Holding(g.cap, Free, g.cap)];
      assert accepted + "a" + Lines(g.cap - n - 1) == accepted + Lines(g.cap - n);
    }
  }

  /** From a full buffer on to an empty one, which is then filled up. */
  lemma FillNext(g: Config, rs: seq<Ring>, es: seq<Event>, cells: seq<Cell>, cur: nat, accepted: string)
    returns (rs': seq<Ring>, es': seq<Event>)
    requires IsRun(g, rs, es) && Short(es) && rs[|es|] == Refilling(cells, cur, accepted)
    requires |cells| == 3 && cur < 3 && cells[cur] == Holding(g.cap, Free, g.cap)
    requires cells[Next(cur, 3)] == Holding(g.cap, Free, 0)
    ensures IsRun(g, rs', es') && Short(es')
    ensures rs'[|es'|] == Refilling(
      cells[cur := Holding(g.cap, Full, g.cap)][Next(cur, 3) := Holding(g.cap, Free, g.cap)], Next(cur, 3),
      accepted + Lines(g.cap))
  {
    var next := Next(cur, 3);
    var moved := cells[cur := Holding(g.cap, Full, g.cap)];
    HoldsMore(g.cap, 0);
    rs', es' := ExtendRun(g, rs, es, Append("a", 1, Zeros(g.cap)));
    assert moved[next] == Holding(g.cap, Free, 0);
    var one := moved[next := Holding(g.cap, Free, 1)];
    assert rs'[|es'|] == Refilling(one, next, accepted + "a");
    rs', es' := Fill(g, rs', es', one, next, 1, accepted + "a");
    assert one[next := Holding(g.cap, Free, g.cap)] == moved[next := Holding(g.cap, Free, g.cap)];
    assert accepted + "a" + Lines(g.cap - 1) == accepted + Lines(g.cap);
  }

  /** After a timeout the first buffer has been written and cleared, and the producers are in the second. */
  lemma TimesOut(g: Config) returns (rs: seq<Ring>, es: seq<Event>)
    requires g.cap > 0
    ensures IsRun(g, rs, es) && Short(es)
    ensures var unused := Holding(g.cap, Free, 0); rs[|es|] == Refilling([unused, unused, unused], 1, "")
  {
    var unused := NewCell(Zeros(g.cap));
    HoldsMore(g.cap, 0);
    rs, es := [Ring([unused, unused, unused], 0, Waiting, 0, "", "", false)], [];
    rs, es := ExtendRun(g, rs, es, Take);
    assert rs[1].cells == [unused.(status := Full), unused, unused];
    StreamsZeros(g.cap);
    rs, es := ExtendRun(g, rs, es, Persist);
    assert Clear(unused.(status := Full)) == unused;
    assert rs[2].cells == [unused, unused, unused];
  }

  /** Before the consumer moves on the producers come round to the cleared buffer and fill it too. */
  lemma ComesRound(g: Config) returns (rs: seq<Ring>, es: seq<Event>)
    requires g.cap > 0
    ensures IsRun(g, rs, es) && Short(es)
    ensures var full := Holding(g.cap, Full, g.cap);
      rs[|es|] == Refilling([full.(status := Free), full, full], 0, Lines(3 * g.cap))
  {
    var unused, full := Holding(g.cap, Free, 0), Holding(g.cap, Full, g.cap);
    var free := full.(status := Free);
    rs, es := TimesOut(g);
    rs, es := Fill(g, rs, es, [unused, unused, unused], 1, 0, "");
    assert [unused, unused, unused][1 := free] == [unused, free, unused];
    rs, es := FillNext(g, rs, es, [unused, free, unused], 1, "" + Lines(g.cap));
    assert [unused, free, unused][1 := full][2 := free] == [unused, full, free];
    rs, es := FillNext(g, rs, es, [unused, full, free], 2, "" + Lines(g.cap) + Lines(g.cap));
    assert [unused, full, free][2 := full][0 := free] == [free, full, full];
    assert "" + Lines(g.cap) + Lines(g.cap) + Lines(g.cap) == Lines(3 * g.cap);
  }

  /** A run with such a splice: with three full buffers before it, the last line is next to be written. */
  lemma BadSpliceReached(g: Config) returns (rs: seq<Ring>, es: seq<Event>)
    requires 0 < g.cap && g.cap * 4 <= g.limit
    ensures IsRun(g, rs, es) && |es| > 0 && BadSplice(g, rs[|es| - 1], es[|es| - 1])
    ensures Short(es)
    ensures var r := rs[|es|];
      r.accepted == Lines(3 * g.cap) + "a" && r.written == "" && Pending(r) == "a" && !Ordered(r)
  {
    rs, es := ComesRound(g);
    var r, e := rs[|es|], Append("a", 1, Zeros(g.cap));
    SplicedPending(g, r, e);
    rs, es := ExtendRun(g, rs, es, e);
  }

  /** In particular with the sizes of the program. */
  lemma BadSpliceExample() returns (rs: seq<Ring>, es: seq<Event>)
    ensures IsRun(RLOG_CONFIG, rs, es) && |es| > 0 && BadSplice(RLOG_CONFIG, rs[|es| - 1], es[|es| - 1])
    ensures Short(es)
    ensures !Ordered(rs[|es|])
  {
    rs, es := BadSpliceReached(RLOG_CONFIG);
  }
}
