/** muduo_se/base/rlog.{h,cc} and the cell buffers of muduo_se/base/buffer.{h,cc}: the linked ring itself,
    whose methods take the steps of `LogRing`. */
module Rlogs {
  import opened Bytes
  import opened LogRing
  import opened LogRuns

  const ONE_BUFF_LEN: nat := 30 * 1024 * 1024
  const MEM_USE_LIMIT: nat := 3 * 1024 * 1024 * 1024
  const RLOG_CONFIG := Config(ONE_BUFF_LEN, MEM_USE_LIMIT)

  class CellBuffer {
    var status: Status
    var pre: CellBuffer?
    var next: CellBuffer?
    const len: nat
    var index: nat
    const data: array<char>

    constructor (len: nat)
      ensures Holds(NewCell(data[..]), len) && fresh(data)
    {
      status, pre, next, index := Free, null, null, 0;
      this.len := len;
      data := new char[len];
    }

    ghost predicate Holds(c: Cell, cap: nat)
      reads `status, `index, data
    {
      && status == c.status && index <= len == data.Length == cap
      && data[..index] == c.bytes && data[index..] == c.tail
    }

    function AvailLen(): int
      reads this
    {
      len - index
    }

    /** Appends, or silently does nothing when there is no room. */
    method Append(s: string, ghost c: Cell)
      requires Holds(c, len)
      modifies `index, data
      ensures Holds(if |s| <= |c.tail| then Put(c, s) else c, len)
    {
      if AvailLen() < |s| {
        return;
      }
      forall i | 0 <= i < |s| {
        data[index + i] := s[i];
      }
      index := index + |s|;
      assert data[..index] == c.bytes + s && data[index..] == c.tail[|s|..];
    }

    /** Sets the index back; the memory stays as it is. */
    method Clear(ghost c: Cell)
      requires Holds(c, len)
      modifies `index, `status
      ensures Holds(LogRing.Clear(c), len)
    {
      assert data[..] == c.bytes + c.tail;
      index := 0;
      status := Free;
    }

    /** Streams the memory as a C string and clears the buffer. */
    method Persist(ghost c: Cell) returns (streamed: Option<string>)
      requires Holds(c, len)
      modifies `index, `status
      ensures streamed == Streamed(c) && Holds(LogRing.Clear(c), len)
    {
      assert data[..] == c.bytes + c.tail;
      streamed := CString(data[..]);
      Clear(c);
    }
  }

  class Rlog {
    var bufCnt: nat
    var curBuf: CellBuffer
    var prstBuf: CellBuffer
    var lstLts: int
    ghost var nodes: seq<CellBuffer>
    ghost var ring: Ring

    static ghost predicate Linked(a: CellBuffer, b: CellBuffer)
      reads a`next, b`pre
    {
      a.next == b && b.pre == a
    }

    static ghost predicate Different(s: seq<CellBuffer>) {
      forall i, j | 0 <= i < j < |s| :: s[i] != s[j] && s[i].data != s[j].data
    }

    /** Different buffers, linked both ways into a circle. */
    static ghost predicate Circle(s: seq<CellBuffer>)
      reads s`next, s`pre
    {
      Different(s) && forall i | 0 <= i < |s| :: Linked(s[i], s[Next(i, |s|)])
    }

    static ghost predicate Contents(s: seq<CellBuffer>, cells: seq<Cell>)
      reads s`status, s`index, set c | c in s :: c.data
    {
      |s| == |cells| && forall i | 0 <= i < |s| :: s[i].Holds(cells[i], RLOG_CONFIG.cap)
    }

    /** `nodes` is the circle of buffers from `prstBuf` on, and `ring` what it holds. */
    ghost predicate Valid()
      reads this, nodes, set c | c in nodes :: c.data
    {
      && Shaped(ring) && |nodes| == |ring.cells| == bufCnt
      && nodes[0] == prstBuf && nodes[ring.cur] == curBuf && lstLts == ring.lastDrop
      && Circle(nodes) && Contents(nodes, ring.cells)
    }

    constructor ()
      ensures Valid() && IsStart(RLOG_CONFIG, ring) && fresh(nodes) && forall c | c in nodes :: fresh(c.data)
    {
      bufCnt, lstLts := 3, 0;
      var head, s, cells := MakeRing(3);
      curBuf, prstBuf := head, head;
      nodes, ring := s, Ring(cells, 0, Waiting, 0, "", "", false);
    }

    /** Different buffers, linked one behind the other. */
    static ghost predicate Chain(s: seq<CellBuffer>)
      reads s`next, s`pre
    {
      Different(s) && forall i | 0 <= i < |s| - 1 :: Linked(s[i], s[i + 1])
    }

    /** Links `n` new buffers into a circle. */
    static method MakeRing(n: nat) returns (head: CellBuffer, ghost s: seq<CellBuffer>, ghost cells: seq<Cell>)
      requires n >= 2
      ensures |s| == n && s[0] == head && fresh(s) && forall c | c in s :: fresh(c.data)
      ensures Circle(s) && Contents(s, cells) && AllNew(RLOG_CONFIG, cells)
    {
      var last;
      head, last, s, cells := MakeChain(n);
      Close(last, head, s);
    }

    static method MakeChain(n: nat)
      returns (head: CellBuffer, prev: CellBuffer, ghost s: seq<CellBuffer>, ghost cells: seq<Cell>)
      requires n >= 1
      ensures |s| == n && s[0] == head && s[n - 1] == prev
      ensures forall j | 0 <= j < n :: fresh(s[j]) && fresh(s[j].data)
      ensures Chain(s) && Contents(s, cells) && AllNew(RLOG_CONFIG, cells)
    {
      ghost var c;
      head, c := NewBuffer();
      s, cells := [head], [c];
      prev := head;
      for i := 1 to n
        invariant |s| == i && s[0] == head && s[i - 1] == prev
        invariant Chain(s) && Contents(s, cells) && AllNew(RLOG_CONFIG, cells)
        invariant forall j | 0 <= j < i :: fresh(s[j]) && fresh(s[j].data)
      {
        prev, s, cells := Attach(prev, s, cells);
      }
    }

    static method Close(last: CellBuffer, head: CellBuffer, ghost s: seq<CellBuffer>)
      requires |s| >= 2 && s[0] == head && s[|s| - 1] == last && Chain(s)
      modifies last`next, head`pre
      ensures Circle(s)
    {
      last.next := head;
      head.pre := last;
      assert forall i | 0 <= i < |s| - 1 :: Linked(s[i], s[i + 1]);
    }

    static method Attach(prev: CellBuffer, ghost s: seq<CellBuffer>, ghost cells: seq<Cell>)
      returns (current: CellBuffer, ghost t: seq<CellBuffer>, ghost all: seq<Cell>)
      requires |s| > 0 && s[|s| - 1] == prev && Chain(s) && Contents(s, cells) && AllNew(RLOG_CONFIG, cells)
      modifies prev`next
      ensures fresh(current) && fresh(current.data) && t == s + [current] && t[0] == s[0] && t[|s|] == current
      ensures Chain(t) && Contents(t, all) && AllNew(RLOG_CONFIG, all)
    {
      ghost var c;
      current, c := NewBuffer();
      ContentsPlus(s, cells, current, c);
      Chained(prev, current, s);
      t, all := s + [current], cells + [c];
    }

    static method NewBuffer() returns (current: CellBuffer, ghost c: Cell)
      ensures fresh(current) && fresh(current.data) && current.Holds(c, RLOG_CONFIG.cap)
      ensures |c.raw| == RLOG_CONFIG.cap && c == NewCell(c.raw)
    {
      current := new CellBuffer(ONE_BUFF_LEN);
      c := NewCell(current.data[..]);
    }

    static lemma ContentsPlus(s: seq<CellBuffer>, cells: seq<Cell>, b: CellBuffer, c: Cell)
      requires Contents(s, cells) && b.Holds(c, RLOG_CONFIG.cap)
      ensures Contents(s + [b], cells + [c])
    {
    }

    static method Chained(prev: CellBuffer, current: CellBuffer, ghost s: seq<CellBuffer>)
      requires |s| > 0 && s[|s| - 1] == prev && Chain(s)
      requires forall i | 0 <= i < |s| :: s[i] != current && s[i].data != current.data
      modifies prev`next, current`pre
      ensures Chain(s + [current])
    {
      current.pre := prev;
      prev.next := current;
      assert forall i | 0 <= i < |s| - 1 :: Linked(s[i], s[i + 1]);
    }

    method PutLine(line: string)
      requires Valid()
      modifies `ring, curBuf`index, curBuf.data
      ensures Valid() && ring == LogRing.PutLine(old(ring), line)
    {
      assert curBuf.Holds(ring.cells[ring.cur], RLOG_CONFIG.cap);
      curBuf.Append(line, ring.cells[ring.cur]);
      forall i | 0 <= i < |nodes| && i != ring.cur ensures nodes[i].Holds(ring.cells[i], RLOG_CONFIG.cap) {
        assert old(nodes[i].Holds(ring.cells[i], RLOG_CONFIG.cap));
        assert nodes[i] != curBuf && nodes[i].data != curBuf.data;
      }
      ring := LogRing.PutLine(ring, line);
    }

    method MarkFull()
      requires Valid()
      modifies `ring, curBuf`status
      ensures Valid() && ring == LogRing.MarkFull(old(ring))
    {
      curBuf.status := Full;
      ring := LogRing.MarkFull(ring);
    }

    method MoveOn()
      requires Valid()
      modifies `ring, `curBuf
      ensures Valid() && ring == LogRing.MoveOn(old(ring))
    {
      assert Linked(nodes[ring.cur], nodes[Next(ring.cur, |nodes|)]);
      curBuf := curBuf.next;
      ring := LogRing.MoveOn(ring);
    }

    /** Links a new buffer in between the current one and the next one, and makes it current. */
    method Splice() returns (ghost raw: string)
      requires Valid()
      modifies `ring, `curBuf, `nodes, `bufCnt, nodes`next, nodes`pre
      ensures Valid() && |raw| == RLOG_CONFIG.cap && ring == LogRing.Splice(old(ring), raw)
      ensures curBuf in nodes && fresh(curBuf) && fresh(curBuf.data)
    {
      ghost var k := ring.cur;
      assert Linked(nodes[k], nodes[Next(k, |nodes|)]);
      var newBuf;
      newBuf, raw := LinkIn(curBuf, curBuf.next, k, nodes, ring.cells);
      PlacesSpliced(nodes, ring, newBuf, raw);
      Enter(newBuf, nodes[..k + 1] + [newBuf] + nodes[k + 1..], LogRing.Splice(ring, raw));
    }

    method Enter(newBuf: CellBuffer, ghost s: seq<CellBuffer>, ghost r: Ring)
      requires Shaped(r) && |s| == |r.cells| == bufCnt + 1 && s[0] == prstBuf && s[r.cur] == newBuf
      requires lstLts == r.lastDrop && Circle(s) && Contents(s, r.cells)
      modifies `ring, `curBuf, `nodes, `bufCnt
      ensures Valid() && ring == r && nodes == s && curBuf == newBuf
    {
      curBuf := newBuf;
      bufCnt := bufCnt + 1;
      nodes := s;
      ring := r;
    }

    static lemma PlacesSpliced(s: seq<CellBuffer>, r: Ring, b: CellBuffer, raw: string)
      requires Shaped(r) && |s| == |r.cells|
      ensures var t, m := s[..r.cur + 1] + [b] + s[r.cur + 1..], LogRing.Splice(r, raw);
        |t| == |m.cells| == |s| + 1 && t[0] == s[0] && t[m.cur] == b && b in t
    {
    }

    static method LinkIn(cur: CellBuffer, next: CellBuffer, ghost k: nat, ghost s: seq<CellBuffer>, ghost cells: seq<Cell>)
      returns (newBuf: CellBuffer, ghost raw: string)
      requires |s| >= 2 && k < |s| && s[k] == cur && s[Next(k, |s|)] == next && Circle(s) && Contents(s, cells)
      modifies cur`next, next`pre
      ensures fresh(newBuf) && fresh(newBuf.data) && |raw| == RLOG_CONFIG.cap
      ensures Circle(s[..k + 1] + [newBuf] + s[k + 1..])
      ensures Contents(s[..k + 1] + [newBuf] + s[k + 1..], cells[..k + 1] + [NewCell(raw)] + cells[k + 1..])
    {
      ghost var c;
      newBuf, c := NewBuffer();
      raw := c.raw;
      Relink(cur, next, newBuf, k, s);
      CircleSpliced(s, k, newBuf);
      ContentsSpliced(s, cells, k, newBuf, raw);
    }

    static method Relink(cur: CellBuffer, next: CellBuffer, newBuf: CellBuffer, ghost k: nat, ghost s: seq<CellBuffer>)
      requires |s| >= 2 && k < |s| && s[k] == cur && s[Next(k, |s|)] == next && Circle(s) && newBuf !in s
      modifies cur`next, next`pre, newBuf`next, newBuf`pre
      ensures Linked(cur, newBuf) && Linked(newBuf, next)
      ensures forall i | 0 <= i < |s| && i != k :: Linked(s[i], s[Next(i, |s|)])
    {
      ghost var n := |s|;
      newBuf.next := next;
      cur.next := newBuf;
      next.pre := newBuf;
      newBuf.pre := cur;
      forall i | 0 <= i < n && i != k ensures Linked(s[i], s[Next(i, n)]) {
        assert old(Linked(s[i], s[Next(i, n)]));
        assert s[Next(i, n)] != next && s[i] != s[k];
      }
    }

    static lemma CircleSpliced(s: seq<CellBuffer>, k: nat, b: CellBuffer)
      requires k < |s| && forall i | 0 <= i < |s| && i != k :: Linked(s[i], s[Next(i, |s|)])
      requires Different(s) && forall i | 0 <= i < |s| :: s[i] != b && s[i].data != b.data
      requires Linked(s[k], b) && Linked(b, s[Next(k, |s|)])
      ensures Circle(s[..k + 1] + [b] + s[k + 1..])
    {
      var t, n := s[..k + 1] + [b] + s[k + 1..], |s|;
      assert forall i | 0 <= i <= k :: t[i] == s[i];
      assert forall i | k + 1 < i <= n :: t[i] == s[i - 1];
      forall i | 0 <= i < n + 1 ensures Linked(t[i], t[Next(i, n + 1)]) {
        assert i < k ==> Linked(s[i], s[Next(i, n)]);
        assert i > k + 1 ==> Linked(s[i - 1], s[Next(i - 1, n)]);
      }
      DifferentSpliced(s, k, b);
    }

    static lemma DifferentSpliced(s: seq<CellBuffer>, k: nat, b: CellBuffer)
      requires k < |s| && Different(s) && forall i | 0 <= i < |s| :: s[i] != b && s[i].data != b.data
      ensures Different(s[..k + 1] + [b] + s[k + 1..])
    {
    }

    static lemma ContentsSpliced(s: seq<CellBuffer>, cells: seq<Cell>, k: nat, b: CellBuffer, raw: string)
      requires k < |s| && Contents(s, cells) && b.Holds(NewCell(raw), RLOG_CONFIG.cap)
      ensures Contents(s[..k + 1] + [b] + s[k + 1..], cells[..k + 1] + [NewCell(raw)] + cells[k + 1..])
    {
    }

    /** The producers' step: append, or open the next buffer, or grow the ring, or drop the line. `tell`
        says whether the consumer is notified, `raw` what the memory of a new buffer holds. */
    method TryAppend(line: string, sec: int) returns (tell: bool, ghost raw: string)
      requires Valid() && 0 < |line| <= RLOG_CONFIG.cap && sec > 0
      modifies this, nodes, set c | c in nodes :: c.data
      ensures Valid() && |raw| == RLOG_CONFIG.cap && ring == AppendStep(RLOG_CONFIG, old(ring), line, sec, raw)
      ensures tell <==> ring.cur != old(ring).cur
    {
      tell, raw := false, seq(RLOG_CONFIG.cap, _ => '\0');
      var limited := Limited(sec);
      if !limited {
        SetDrop(0);
        tell, raw := Store(line, sec);
      }
    }

    method Limited(sec: int) returns (limited: bool)
      requires Valid()
      ensures limited == RateLimited(ring, sec)
    {
      limited := lstLts != 0 && (sec - lstLts) % WORD < RELOG_THRESHOLD;
    }

    method Store(line: string, sec: int) returns (tell: bool, ghost raw: string)
      requires Valid() && sec > 0 && ring.lastDrop == 0
      modifies this, nodes, set c | c in nodes :: c.data
      ensures Valid() && |raw| == RLOG_CONFIG.cap && ring == LogRing.Store(RLOG_CONFIG, old(ring), line, sec, raw)
      ensures tell <==> ring.cur != old(ring).cur
    {
      tell, raw := false, seq(RLOG_CONFIG.cap, _ => '\0');
      var free, fits := Inspect(line);
      if free && fits {
        PutLine(line);
      } else if free {
        tell := true;
        raw := Overflow(line, sec);
      } else {
        SetDrop(sec);
      }
    }

    method Inspect(line: string) returns (free: bool, fits: bool)
      requires Valid()
      ensures free == ring.cells[ring.cur].status.Free? && fits == Fits(ring, line)
    {
      assert curBuf.Holds(ring.cells[ring.cur], RLOG_CONFIG.cap);
      free, fits := curBuf.status == Free, curBuf.AvailLen() >= |line|;
    }

    method Overflow(line: string, sec: int) returns (ghost raw: string)
      requires Valid() && sec > 0 && ring.lastDrop == 0
      modifies this, nodes, set c | c in nodes :: c.data
      ensures Valid() && |raw| == RLOG_CONFIG.cap
      ensures ring == LogRing.Overflow(RLOG_CONFIG, old(ring), line, sec, raw)
    {
      MarkFull();
      raw := OpenNext(sec);
      if lstLts == 0 {
        PutLine(line);
      }
    }

    method SetDrop(sec: int)
      requires Valid()
      modifies `lstLts, `ring
      ensures Valid() && ring == old(ring).(lastDrop := sec)
    {
      lstLts := sec;
      ring := ring.(lastDrop := sec);
    }

    method OpenNext(sec: int) returns (ghost raw: string)
      requires Valid()
      modifies this, nodes`next, nodes`pre
      ensures Valid() && |raw| == RLOG_CONFIG.cap && ring == GoOn(RLOG_CONFIG, old(ring), sec, raw)
      ensures curBuf in old(nodes) || (fresh(curBuf) && fresh(curBuf.data))
    {
      raw := seq(RLOG_CONFIG.cap, _ => '\0');
      var full := NextIsFull();
      if !full {
        MoveOn();
      } else {
        var tooBig := LimitReached();
        if tooBig {
          MoveOn();
          SetDrop(sec);
        } else {
          raw := Splice();
        }
      }
    }

    method LimitReached() returns (tooBig: bool)
      requires Valid()
      ensures tooBig == TooBig(RLOG_CONFIG, ring)
    {
      tooBig := ONE_BUFF_LEN * (bufCnt + 1) > MEM_USE_LIMIT;
    }

    method NextIsFull() returns (full: bool)
      requires Valid()
      ensures full == LogRing.NextIsFull(ring)
    {
      ghost var k := Next(ring.cur, |nodes|);
      assert Linked(nodes[ring.cur], nodes[k]) && nodes[k].Holds(ring.cells[k], RLOG_CONFIG.cap);
      full := curBuf.next.status == Full;
    }

    /** The consumer under the lock: after a timeout it takes the buffer that is still being filled. */
    method Take()
      requires Valid() && ring.phase.Waiting?
      modifies this, nodes`status
      ensures Valid() && ring == Step(RLOG_CONFIG, old(ring), LogRing.Take)
    {
      var free := FirstIsFree();
      if free {
        MarkFull();
        MoveOn();
      }
      EnterPhase(Writing);
    }

    method FirstIsFree() returns (free: bool)
      requires Valid()
      ensures free == ring.cells[0].status.Free?
    {
      assert prstBuf.Holds(ring.cells[0], RLOG_CONFIG.cap);
      free := prstBuf.status == Free;
    }

    ghost method EnterPhase(phase: Phase)
      requires Valid()
      modifies `ring
      ensures Valid() && ring == old(ring).(phase := phase)
    {
      ring := ring.(phase := phase);
    }

    /** Writes and clears the buffer without the lock. */
    method Persist() returns (streamed: Option<string>)
      requires Valid() && ring.phase.Writing?
      modifies this, nodes
      ensures Valid() && streamed == Streamed(old(ring).cells[0])
      ensures ring == Step(RLOG_CONFIG, old(ring), LogRing.Persist)
    {
      assert prstBuf.Holds(ring.cells[0], RLOG_CONFIG.cap);
      streamed := prstBuf.Persist(ring.cells[0]);
      ring := Step(RLOG_CONFIG, ring, LogRing.Persist);
    }

    method Advance()
      requires Valid() && ring.phase.Cleared?
      modifies `prstBuf, `nodes, `ring
      ensures Valid() && ring == Step(RLOG_CONFIG, old(ring), LogRing.Advance)
    {
      assert Next(0, |nodes|) == 1 && Linked(nodes[0], nodes[Next(0, |nodes|)]);
      CircleTurned(nodes, ring.cells);
      prstBuf := prstBuf.next;
      nodes := nodes[1..] + [nodes[0]];
      ring := Step(RLOG_CONFIG, ring, LogRing.Advance);
    }

    static lemma CircleTurned(s: seq<CellBuffer>, cells: seq<Cell>)
      requires |s| >= 2 && Circle(s) && Contents(s, cells)
      ensures Circle(s[1..] + [s[0]]) && Contents(s[1..] + [s[0]], cells[1..] + [cells[0]])
    {
      var t, n := s[1..] + [s[0]], |s|;
      forall i | 0 <= i < n ensures Linked(t[i], t[Next(i, n)]) {
        assert i < n - 1 ==> Linked(s[i + 1], s[Next(i + 1, n)]);
        assert i == n - 1 ==> Linked(s[0], s[Next(0, n)]);
      }
    }
  }
}
