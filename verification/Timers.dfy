/** muduo_se/net/TimerQueue.cc as a state machine over the actions of the loop thread. Times are in
    nanoseconds, intervals in microseconds. */
module Timers {
  import opened Bytes

  /** The pair that `indexlist_` and `waitdeltimelist` hold: a timer's number and its node's address. */
  datatype Handle = Handle(index: int, addr: int)

  datatype Timer = Timer(index: int, addr: int, when: int, interval: int)

  function Key(t: Timer): Handle { Handle(t.index, t.addr) }

  predicate Repeats(t: Timer) { t.interval > 0 }

  /** An entry of `deltimelist`: it owns its node until the node goes back into `list_`. */
  datatype Slot = Owned(t: Timer) | Released

  /** Calling(pos, n, c): callbacks before `pos` have run; `n` is handleRead's clock reading, `c` getExpired's. */
  datatype Phase = Idle | Calling(pos: nat, n: int, c: int)

  datatype Descriptor = Descriptor(readable: bool, armed: Option<int>, lastReset: int)

  /** `used` holds the numbers of all timers ever added and `clock` the latest clock reading. */
  datatype World = World(
    list: seq<Timer>, indexes: set<Handle>, batch: seq<Slot>, waiting: set<Handle>,
    phase: Phase, fd: Descriptor, used: set<int>, clock: int)

  datatype Event =
    | Add(t: Timer, at: int)
    | Cancel(h: Handle)
    | BeginBatch(n: int, c: int)
    | RunNext
    | EndBatch(at: int)
    | Fire(at: int)

  const EPOCH := 0

  function Start(clock: int): World {
    World([], {}, [], {}, Idle, Descriptor(false, None, clock), {}, clock)
  }

  /** The order of `list_`: by expiration, then by address. */
  predicate Before(a: Timer, b: Timer) {
    a.when < b.when || (a.when == b.when && a.addr < b.addr)
  }

  function Insert(list: seq<Timer>, t: Timer): (r: seq<Timer>)
    ensures |r| == |list| + 1
    ensures forall x :: x in r <==> x == t || x in list
  {
    if list == [] || Before(t, list[0]) then [t] + list
    else
      var r := Insert(list[1..], t);
      assert list == [list[0]] + list[1..];
      [list[0]] + r
  }

  function Remove(list: seq<Timer>, h: Handle): (r: seq<Timer>)
    ensures forall x :: x in r ==> x in list
    ensures forall x :: x in list && Key(x) != h ==> x in r
  {
    if list == [] then []
    else if Key(list[0]) == h then list[1..]
    else [list[0]] + Remove(list[1..], h)
  }

  /** How many leading timers are due: the lower bound of (c, nullptr). */
  function Due(list: seq<Timer>, c: int): (k: nat)
    ensures k <= |list| && forall i | 0 <= i < k :: list[i].when < c
    ensures k < |list| ==> list[k].when >= c
  {
    if list == [] || list[0].when >= c then 0 else 1 + Due(list[1..], c)
  }

  /** A relative timer never shorter than 100 microseconds; the division truncates toward zero. */
  function Arm(when: int, now: int): Descriptor {
    var micros := if when >= now then (when - now) / 1000 else -((now - when) / 1000);
    var diff := if micros < 100 then 100 else micros;
    Descriptor(false, Some(now + 1000 * diff), now)
  }

  predicate AddressLive(w: World, addr: int) {
    (exists x :: x in w.list && x.addr == addr) || (exists s :: s in w.batch && s.Owned? && s.t.addr == addr)
  }

  /** What the environment can do. Numbers come from a counter, so they are never reused; an address can
      be, once its node is freed. */
  predicate Enabled(w: World, e: Event) {
    match e
    case Add(t, at) => t.index !in w.used && !AddressLive(w, t.addr) && w.clock <= at
    case Cancel(_) => true
    case BeginBatch(n, c) => w.phase.Idle? && w.clock <= n <= c
    case RunNext => w.phase.Calling? && w.phase.pos < |w.batch|
    case EndBatch(at) => w.phase.Calling? && w.phase.pos == |w.batch| && w.clock <= at
    case Fire(at) => w.fd.armed.Some? && w.fd.armed.value <= at && w.clock <= at
  }

  function Step(w: World, e: Event): World
    requires Enabled(w, e)
  {
    match e
    case Add(t, at) =>
      var earliest := w.list == [] || t.when < w.list[0].when;
      w.(list := Insert(w.list, t), indexes := w.indexes + {Key(t)}, used := w.used + {t.index}, clock := at,
         fd := if earliest then Arm(t.when, at) else w.fd)
    case Cancel(h) =>
      if h in w.indexes then w.(list := Remove(w.list, h), indexes := w.indexes - {h})
      else if w.phase.Calling? then w.(waiting := w.waiting + {h})
      else w
    case BeginBatch(n, c) =>
      var k := Due(w.list, c);
      w.(batch := Own(w.list[..k]), list := w.list[k..], indexes := w.indexes - Keys(w.list[..k]),
         phase := Calling(0, n, c), clock := c)
    case RunNext => w.(phase := w.phase.(pos := w.phase.pos + 1))
    case EndBatch(at) =>
      var v := Flush(w, w.phase.n, 0);
      v.(phase := Idle, clock := at,
         fd := if v.list != [] && v.list[0].when != EPOCH then Arm(v.list[0].when, at) else v.fd)
    case Fire(at) => w.(fd := w.fd.(readable := true, armed := None), clock := at)
  }

  function Own(list: seq<Timer>): (r: seq<Slot>)
    ensures |r| == |list| && forall i | 0 <= i < |r| :: r[i] == Owned(list[i])
  {
    seq(|list|, i requires 0 <= i < |list| => Owned(list[i]))
  }

  function Keys(list: seq<Timer>): set<Handle> {
    set t | t in list :: Key(t)
  }

  /** A batch entry goes back into the list unless it is a one-shot or waits to be deleted. */
  predicate Restarts(w: World, k: nat)
    requires k < |w.batch|
  {
    w.batch[k].Owned? && Repeats(w.batch[k].t) && Key(w.batch[k].t) !in w.waiting
  }

  function Restarted(t: Timer, n: int): Timer {
    t.(when := n + 1000 * t.interval)
  }

  function FlushOne(w: World, n: int, k: nat): World
    requires k < |w.batch|
  {
    if Restarts(w, k) then
      var t := Restarted(w.batch[k].t, n);
      w.(list := Insert(w.list, t), indexes := w.indexes + {Key(t)}, batch := w.batch[k := Released])
    else w
  }

  function Flush(w: World, n: int, k: nat): World
    requires k <= |w.batch|
    decreases |w.batch| - k
  {
    if k == |w.batch| then w else Flush(FlushOne(w, n, k), n, k + 1)
  }

  predicate Sorted(list: seq<Timer>) {
    forall i, j | 0 <= i < j < |list| :: Before(list[i], list[j])
  }

  /** No two nodes share a number or an address, whichever container owns them. */
  ghost predicate Distinct(w: World) {
    && (forall x, y | x in w.list && y in w.list && (x.index == y.index || x.addr == y.addr) :: x == y)
    && (forall i, j | 0 <= i < |w.batch| && 0 <= j < |w.batch| && w.batch[i].Owned? && w.batch[j].Owned?
          && (w.batch[i].t.index == w.batch[j].t.index || w.batch[i].t.addr == w.batch[j].t.addr) :: i == j)
    && (forall x, i | x in w.list && 0 <= i < |w.batch| && w.batch[i].Owned? ::
          x.index != w.batch[i].t.index && x.addr != w.batch[i].t.addr)
  }

  ghost predicate Numbered(w: World) {
    && (forall x | x in w.list :: x.index in w.used)
    && (forall i | 0 <= i < |w.batch| && w.batch[i].Owned? :: w.batch[i].t.index in w.used)
  }

  ghost predicate BatchOk(w: World) {
    w.phase.Calling? ==>
      && w.phase.pos <= |w.batch| && 0 < w.phase.n <= w.phase.c <= w.clock
      && forall i | 0 <= i < |w.batch| :: w.batch[i].Owned? && w.batch[i].t.when < w.phase.c
  }

  /** While a timer is pending, the descriptor is readable or armed early enough. */
  ghost predicate Armed(w: World) {
    w.list != [] ==>
      w.fd.readable || (w.fd.armed.Some? && w.fd.armed.value <= Max(w.list[0].when, w.fd.lastReset + 100 * 1000))
  }

  ghost predicate Inv(w: World) {
    && Sorted(w.list) && w.indexes == Keys(w.list)
    && Distinct(w) && Numbered(w) && BatchOk(w) && Armed(w) && w.clock > 0
  }

  lemma {:induction false} InsertSorted(list: seq<Timer>, t: Timer)
    requires Sorted(list) && forall x | x in list :: x.addr != t.addr
    ensures Sorted(Insert(list, t))
    ensures Insert(list, t)[0] == if list == [] || Before(t, list[0]) then t else list[0]
    ensures Keys(Insert(list, t)) == Keys(list) + {Key(t)}
    decreases |list|
  {
    var r := Insert(list, t);
    if list == [] || Before(t, list[0]) {
      forall i, j | 0 <= i < j < |r| ensures Before(r[i], r[j]) {
        assert i == 0 && j > 1 ==> Before(list[0], list[j - 1]);
      }
    } else {
      assert list[0] in list;
      InsertSorted(list[1..], t);
      forall j | 0 < j < |r| ensures Before(r[0], r[j]) {
        var y := r[j];
        assert y in Insert(list[1..], t);
        assert y != t ==> y in list[1..];
      }
    }
  }

  lemma {:induction false} RemoveExact(list: seq<Timer>, h: Handle)
    requires Sorted(list)
    requires forall x, y | x in list && y in list && x.index == y.index :: x == y
    ensures Sorted(Remove(list, h))
    ensures forall x :: x in Remove(list, h) <==> x in list && Key(x) != h
    decreases |list|
  {
    if list != [] {
      assert list == [list[0]] + list[1..];
      assert forall j | 0 < j < |list| :: Before(list[0], list[j]);
      if Key(list[0]) == h {
        assert list[0] !in list[1..];
      } else {
        RemoveExact(list[1..], h);
        var r := Remove(list, h);
        forall j | 0 < j < |r| ensures Before(r[0], r[j]) {
          assert r[j] in Remove(list[1..], h);
        }
      }
    }
  }

  /** The batch is every timer strictly before the clock reading, the rest are all at or after it. */
  lemma DueExact(list: seq<Timer>, c: int)
    requires Sorted(list)
    ensures forall x :: x in list[..Due(list, c)] <==> x in list && x.when < c
    ensures forall x :: x in list[Due(list, c)..] <==> x in list && x.when >= c
  {
  }

  /** A timer that flushing the entries from `k` on puts back into the list. */
  ghost predicate PutBack(w: World, n: int, k: nat, x: Timer) {
    exists i :: k <= i < |w.batch| && Restarts(w, i) && x == Restarted(w.batch[i].t, n)
  }

  /** What flushing the batch from entry `k` on does to the list, the index and the batch. */
  ghost predicate Flushed(w: World, n: int, k: nat, v: World) {
    && v == w.(list := v.list, indexes := v.indexes, batch := v.batch)
    && Sorted(v.list) && v.indexes == Keys(v.list) && |v.batch| == |w.batch|
    && (forall i | 0 <= i < |w.batch| :: v.batch[i] == if i >= k && Restarts(w, i) then Released else w.batch[i])
    && (forall x :: x in v.list <==> x in w.list || PutBack(w, n, k, x))
  }

  lemma {:induction false} FlushExact(w: World, n: int, k: nat)
    requires Sorted(w.list) && w.indexes == Keys(w.list) && Distinct(w) && k <= |w.batch|
    ensures Flushed(w, n, k, Flush(w, n, k))
    decreases |w.batch| - k
  {
    if k < |w.batch| {
      var u := FlushOne(w, n, k);
      FlushOneExact(w, n, k);
      FlushExact(u, n, k + 1);
      var v := Flush(w, n, k);
      forall x ensures x in v.list <==> x in w.list || PutBack(w, n, k, x) {
        PutBackSplit(w, n, k, x);
      }
    }
  }

  lemma FlushOneExact(w: World, n: int, k: nat)
    requires Sorted(w.list) && w.indexes == Keys(w.list) && Distinct(w) && k < |w.batch|
    ensures var u := FlushOne(w, n, k);
      && u == w.(list := u.list, indexes := u.indexes, batch := u.batch)
      && Sorted(u.list) && u.indexes == Keys(u.list) && Distinct(u) && |u.batch| == |w.batch|
      && u.batch == (if Restarts(w, k) then w.batch[k := Released] else w.batch)
      && (forall x :: x in u.list <==> x in w.list || (Restarts(w, k) && x == Restarted(w.batch[k].t, n)))
  {
    if Restarts(w, k) {
      InsertSorted(w.list, Restarted(w.batch[k].t, n));
    }
  }

  lemma PutBackSplit(w: World, n: int, k: nat, x: Timer)
    requires k < |w.batch|
    ensures PutBack(w, n, k, x)
       <==> (Restarts(w, k) && x == Restarted(w.batch[k].t, n)) || PutBack(FlushOne(w, n, k), n, k + 1, x)
  {
    var u := FlushOne(w, n, k);
    assert forall i | k < i < |w.batch| :: u.batch[i] == w.batch[i] && Restarts(u, i) == Restarts(w, i);
  }
}
