/** muduo_se/base/rlog.{h,cc} as a state machine: producers appending under the lock, and the consumer
    thread, whose clear and advance are separate steps. */
module LogRing {
  import opened Bytes

  datatype Status = Free | Full

  /** A buffer: the bytes before `index_` and the memory behind them. `raw` records what the memory held when
      it was allocated, and `high` how far lines have ever been written into it. */
  datatype Cell = Cell(status: Status, bytes: string, tail: string, raw: string, high: nat)

  /** Where the consumer is: waiting for a full buffer, writing one to the file without the lock, or past
      its unlocked clear but not yet past `prst_buf = prst_buf->next`. */
  datatype Phase = Waiting | Writing | Cleared

  /** `cap` is the size of one buffer and `limit` the memory limit. */
  datatype Config = Config(cap: nat, limit: nat)

  /** The circle of buffers, listed from `prst_buf` on; `cur` is the place of `cur_buf`. `accepted` is every
      line that went into a buffer, `written` what went into the file. `astray` says that streaming has run
      past the end of a buffer, after which the file may hold anything. */
  datatype Ring = Ring(
    cells: seq<Cell>, cur: nat, phase: Phase, lastDrop: int, written: string, accepted: string, astray: bool)

  /** `sec` is the clock in seconds; `raw` is the memory of the new buffer if one is linked in. */
  datatype Event =
    | Append(line: string, sec: int, raw: string)
    | Take
    | FileFails
    | Persist
    | Advance

  const RELOG_THRESHOLD := 5
  const WORD := 0x1_0000_0000_0000_0000

  function NewCell(raw: string): Cell { Cell(Free, "", raw, raw, 0) }

  predicate Blank(c: Cell) { c.status.Free? && c.bytes == "" }

  /** Copies a line behind the bytes. */
  function Put(c: Cell, line: string): Cell
    requires |line| <= |c.tail|
  {
    c.(bytes := c.bytes + line, tail := c.tail[|line|..], high := Max(c.high, |c.bytes| + |line|))
  }

  /** Sets the index back; the memory stays as it is. */
  function Clear(c: Cell): Cell {
    c.(status := Free, bytes := "", tail := c.bytes + c.tail)
  }

  /** What streaming a char pointer puts out: the bytes up to the first NUL, or unknown when there is none
      in the buffer's memory. */
  function CString(data: seq<char>): Option<string> {
    if data == [] then None
    else if data[0] == '\0' then Some("")
    else match CString(data[1..])
      case None => None
      case Some(s) => Some([data[0]] + s)
  }

  /** It puts out exactly the first `index` bytes if and only if none of them is NUL and a NUL follows. */
  lemma {:induction false} CStringExactly(data: seq<char>, index: nat)
    requires index <= |data|
    ensures CString(data) == Some(data[..index]) <==> '\0' !in data[..index] && index < |data| && data[index] == '\0'
    decreases |data|
  {
    if data != [] {
      if data[0] == '\0' {
        if index > 0 {
          assert data[..index][0] == '\0';
        }
      } else if index == 0 {
        assert CString(data).Some? ==> |CString(data).value| > 0;
      } else {
        var later, own := CString(data[1..]), data[1..][..index - 1];
        CStringExactly(data[1..], index - 1);
        assert data[..index] == [data[0]] + own;
        if later.Some? {
          assert ([data[0]] + later.value)[1..] == later.value && ([data[0]] + own)[1..] == own;
        }
      }
    }
  }

  function Streamed(c: Cell): Option<string> { CString(c.bytes + c.tail) }

  predicate AllNew(g: Config, cells: seq<Cell>) {
    forall i | 0 <= i < |cells| :: |cells[i].raw| == g.cap && cells[i] == NewCell(cells[i].raw)
  }

  /** Three new buffers, whatever their memory holds. */
  predicate IsStart(g: Config, r: Ring) {
    |r.cells| == 3 && AllNew(g, r.cells) && r == Ring(r.cells, 0, Waiting, 0, "", "", false)
  }

  function Next(i: nat, n: nat): nat { if i + 1 == n then 0 else i + 1 }

  predicate Shaped(r: Ring) {
    |r.cells| >= 2 && r.cur < |r.cells|
  }

  predicate Enabled(g: Config, r: Ring, e: Event) {
    Shaped(r) &&
    match e
    case Append(line, sec, raw) => 0 < |line| <= g.cap && sec > 0 && |raw| == g.cap
    case Take => r.phase.Waiting?
    case FileFails => r.phase.Writing?
    case Persist => r.phase.Writing?
    case Advance => r.phase.Cleared?
  }

  /** Within the threshold after a drop, in unsigned 64-bit arithmetic. */
  predicate RateLimited(r: Ring, sec: int) {
    r.lastDrop != 0 && (sec - r.lastDrop) % WORD < RELOG_THRESHOLD
  }

  predicate Fits(r: Ring, line: string)
    requires Shaped(r)
  {
    |line| <= |r.cells[r.cur].tail|
  }

  function PutLine(r: Ring, line: string): (m: Ring)
    requires Shaped(r)
    ensures Shaped(m) && m.cur == r.cur
  {
    if Fits(r, line) then r.(cells := r.cells[r.cur := Put(r.cells[r.cur], line)], accepted := r.accepted + line)
    else r
  }

  function MarkFull(r: Ring): (m: Ring)
    requires Shaped(r)
    ensures Shaped(m)
  {
    r.(cells := r.cells[r.cur := r.cells[r.cur].(status := Full)])
  }

  function MoveOn(r: Ring): (m: Ring)
    requires Shaped(r)
    ensures Shaped(m)
  {
    r.(cur := Next(r.cur, |r.cells|))
  }

  /** A new buffer is linked in behind `cur_buf` and becomes it. */
  function Splice(r: Ring, raw: string): (m: Ring)
    requires Shaped(r)
    ensures Shaped(m)
  {
    r.(cells := r.cells[..r.cur + 1] + [NewCell(raw)] + r.cells[r.cur + 1..], cur := r.cur + 1)
  }

  /** The circle listed from the next buffer on. */
  function Rotate(r: Ring): (m: Ring)
    requires Shaped(r)
    ensures Shaped(m)
  {
    r.(cells := r.cells[1..] + [r.cells[0]], cur := if r.cur == 0 then |r.cells| - 1 else r.cur - 1)
  }

  predicate TooBig(g: Config, r: Ring) {
    g.cap * (|r.cells| + 1) > g.limit
  }

  predicate NextIsFull(r: Ring)
    requires Shaped(r)
  {
    r.cells[Next(r.cur, |r.cells|)].status.Full?
  }

  /** On to the next buffer, or to a new one when the next one is full too, or, at the memory limit, on to the
      full one. */
  function GoOn(g: Config, r: Ring, sec: int, raw: string): (m: Ring)
    requires Shaped(r)
    ensures Shaped(m) && m.cur != r.cur
  {
    if !NextIsFull(r) then MoveOn(r)
    else if TooBig(g, r) then MoveOn(r).(lastDrop := sec)
    else Splice(r, raw)
  }

  function Open(g: Config, r: Ring, sec: int, raw: string): (m: Ring)
    requires Shaped(r)
    ensures Shaped(m) && m.cur != r.cur
  {
    GoOn(g, MarkFull(r), sec, raw)
  }

  /** The line does not fit: it goes into the buffer that is opened for it, or nowhere. */
  function Overflow(g: Config, r: Ring, line: string, sec: int, raw: string): (m: Ring)
    requires Shaped(r)
    ensures Shaped(m) && m.cur != r.cur
  {
    var o := Open(g, r, sec, raw);
    if o.lastDrop == 0 then PutLine(o, line) else o
  }

  /** The part of try_append under the lock. */
  function Store(g: Config, r: Ring, line: string, sec: int, raw: string): (m: Ring)
    requires Shaped(r)
    ensures Shaped(m)
  {
    if r.cells[r.cur].status.Full? then r.(lastDrop := sec)
    else if Fits(r, line) then PutLine(r, line)
    else Overflow(g, r, line, sec, raw)
  }

  function AppendStep(g: Config, r: Ring, line: string, sec: int, raw: string): (m: Ring)
    requires Shaped(r)
    ensures Shaped(m)
  {
    if RateLimited(r, sec) then r else Store(g, r.(lastDrop := 0), line, sec, raw)
  }

  function Step(g: Config, r: Ring, e: Event): (m: Ring)
    requires Enabled(g, r, e)
    ensures Shaped(m)
  {
    match e
    case Append(line, sec, raw) => AppendStep(g, r, line, sec, raw)
    case Take => (if r.cells[0].status.Free? then MoveOn(MarkFull(r)) else r).(phase := Writing)
    case FileFails => r.(phase := Waiting)
    case Persist =>
      var streamed := Streamed(r.cells[0]);
      r.(cells := r.cells[0 := Clear(r.cells[0])], phase := Cleared, astray := r.astray || streamed.None?,
         written := if streamed.Some? then r.written + streamed.value else r.written)
    case Advance => Rotate(r).(phase := Waiting)
  }

  /** The circle in the order in which the consumer will take it: a cleared first buffer comes last. */
  function InOrder(r: Ring): (m: Ring)
    requires Shaped(r)
    ensures Shaped(m)
  {
    if r.phase.Cleared? then Rotate(r) else r
  }

  function Join(cells: seq<Cell>): string {
    if cells == [] then "" else cells[0].bytes + Join(cells[1..])
  }

  /** What the file still has to get: the buffers from the consumer's next one round to `cur_buf`, or all of
      them when every one is full. */
  function Pending(r: Ring): string
    requires Shaped(r)
  {
    var q := InOrder(r);
    if q.cells[q.cur].status.Full? then Join(q.cells) else Join(q.cells[..q.cur + 1])
  }

  /** No line lost, repeated or out of order between the producers and the file. */
  predicate Ordered(r: Ring) {
    Shaped(r) && !r.astray && r.accepted == r.written + Pending(r)
  }

  /** The buffers in the consumer's order: full ones first, then `cur_buf`, then empty ones; or all full,
      which the memory limit alone can bring about. */
  predicate Arc(g: Config, q: Ring)
    requires Shaped(q)
  {
    if q.cells[q.cur].status.Full? then
      q.cur == 0 && TooBig(g, q) && forall i | 0 <= i < |q.cells| :: q.cells[i].status.Full?
    else
      && (forall i | 0 <= i < q.cur :: q.cells[i].status.Full?)
      && (forall i | q.cur < i < |q.cells| :: Blank(q.cells[i]))
  }

  /** A full buffer is never empty, but for the consumer's own one, which a timeout may have marked. */
  predicate NoneHollow(r: Ring) {
    forall i | 0 <= i < |r.cells| && (i > 0 || r.phase.Cleared?) && r.cells[i].status.Full? :: r.cells[i].bytes != ""
  }

  /** The circle in the consumer's order: an arc that holds exactly the lines the file still has to get, within
      the memory limit. */
  predicate ArcInv(g: Config, q: Ring) {
    && Shaped(q) && Arc(g, q) && !q.astray && q.accepted == q.written + Join(q.cells)
    && (forall i | 0 <= i < |q.cells| :: |q.cells[i].bytes| + |q.cells[i].tail| == g.cap)
    && g.cap * |q.cells| <= Max(3 * g.cap, g.limit)
  }

  predicate Inv(g: Config, r: Ring) {
    && Shaped(r) && ArcInv(g, InOrder(r)) && NoneHollow(r)
    && (r.phase.Writing? ==> r.cells[0].status.Full?)
  }

  /** Linking a buffer in while the consumer is between its clear and its advance. */
  predicate BadSplice(g: Config, r: Ring, e: Event) {
    && Enabled(g, r, e) && e.Append? && r.phase.Cleared? && !RateLimited(r, e.sec) && !Fits(r, e.line)
    && r.cells[r.cur].status.Free? && r.cells[Next(r.cur, |r.cells|)].status.Full? && !TooBig(g, r)
  }

  /** The stream operator stops right behind the buffer's bytes. */
  predicate StreamsOwn(c: Cell) {
    '\0' !in c.bytes && c.tail != "" && c.tail[0] == '\0'
  }

  /** Streaming a buffer with a NUL among its bytes, without room behind them, or with stale bytes there. */
  predicate BadStream(r: Ring, e: Event) {
    e.Persist? && Shaped(r) && !StreamsOwn(r.cells[0])
  }

  predicate Breaks(g: Config, r: Ring, e: Event) {
    BadSplice(g, r, e) || BadStream(r, e)
  }

  lemma {:induction false} JoinConcat(a: seq<Cell>, b: seq<Cell>)
    ensures Join(a + b) == Join(a) + Join(b)
    decreases |a|
  {
    if a == [] {
      assert a + b == b;
    } else {
      assert (a + b)[1..] == a[1..] + b;
      JoinConcat(a[1..], b);
    }
  }

  lemma {:induction false} JoinEmpty(cells: seq<Cell>)
    requires forall i | 0 <= i < |cells| :: cells[i].bytes == ""
    ensures Join(cells) == ""
    decreases |cells|
  {
    if cells != [] {
      JoinEmpty(cells[1..]);
    }
  }

  /** On an arc, what is pending is simply everything in the circle. */
  lemma PendingIsAll(g: Config, r: Ring)
    requires Shaped(r) && Arc(g, InOrder(r))
    ensures Pending(r) == Join(InOrder(r).cells)
  {
    var q := InOrder(r);
    if q.cells[q.cur].status.Free? {
      assert q.cells == q.cells[..q.cur + 1] + q.cells[q.cur + 1..];
      JoinConcat(q.cells[..q.cur + 1], q.cells[q.cur + 1..]);
      JoinEmpty(q.cells[q.cur + 1..]);
    }
  }

  lemma InvOrdered(g: Config, r: Ring)
    requires Inv(g, r)
    ensures Ordered(r)
  {
    PendingIsAll(g, r);
  }

  /** Adding bytes to the last non-empty buffer adds them at the end. */
  lemma JoinGrows(cells: seq<Cell>, k: nat, c: Cell, line: string)
    requires k < |cells| && forall i | k < i < |cells| :: cells[i].bytes == ""
    requires c.bytes == cells[k].bytes + line
    ensures Join(cells[k := c]) == Join(cells) + line
  {
    var grown := cells[k := c];
    assert cells == cells[..k] + [cells[k]] + cells[k + 1..];
    assert grown == cells[..k] + [c] + cells[k + 1..];
    JoinConcat(cells[..k] + [cells[k]], cells[k + 1..]);
    JoinConcat(cells[..k] + [c], cells[k + 1..]);
    JoinConcat(cells[..k], [cells[k]]);
    JoinConcat(cells[..k], [c]);
    JoinEmpty(cells[k + 1..]);
  }

  lemma {:induction false} JoinIgnoresStatus(a: seq<Cell>, b: seq<Cell>)
    requires |a| == |b| && forall i | 0 <= i < |a| :: a[i].bytes == b[i].bytes
    ensures Join(a) == Join(b)
    decreases |a|
  {
    if a != [] {
      JoinIgnoresStatus(a[1..], b[1..]);
    }
  }
}
