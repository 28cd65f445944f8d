/** What a caller can do with the handle that addTimeNode returns, and what the descriptor does once nothing is
    pending. Over every run of the timer queue. */
module TimerHandles {
  import opened Bytes
  import opened Timers
  import opened TimerRuns

  /** The handle returned for `t` when `others` timers were constructed in between. */
  function Returned(t: Timer, others: nat): Handle { Handle(t.index + others, t.addr) }

  /** As long as the timer lives, no other timer has its address: a handle with the wrong number finds nothing. */
  lemma WrongHandleFindsNothing(w: World, t: Timer, h: Handle)
    requires Inv(w) && (InList(w, t) || InBatch(w, t))
    requires h.addr == t.addr && h.index != t.index
    ensures h !in w.indexes
  {
  }

  /** Cancelling a pending timer by the returned handle takes it out, and it never runs again, if and only if no
      other timer was constructed in between; otherwise it stays pending. */
  lemma HandleStopsExactly(ws: seq<World>, es: seq<Event>, k: nat, t: Timer, others: nat)
    requires IsRun(ws, es) && k < |es| && InList(ws[k], t) && es[k] == Cancel(Returned(t, others))
    ensures InList(ws[k + 1], t) <==> others > 0
    ensures others == 0 ==> forall j, u | k < j < |es| && Runs(ws[j], es[j], u) :: u.index != t.index
  {
    var w, h := ws[k], Returned(t, others);
    InvAlways(ws, es, k);
    if others > 0 {
      WrongHandleFindsNothing(w, t, h);
      assert ws[k + 1].list == w.list;
    } else {
      var x :| x in w.list && Key(x) == Key(t) && x.interval == t.interval;
      RemoveExact(w.list, h);
      forall j, u | k < j < |es| && Runs(ws[j], es[j], u) ensures u.index != t.index {
        CancelledNeverRuns(ws, es, k, j, h, u);
      }
    }
  }

  /** When the returned handle is wrong and the only one in use for the timer's address, a repeating timer goes
      on for ever: no number of cancels by that handle ever finds it. */
  lemma WrongHandleNeverStops(ws: seq<World>, es: seq<Event>, i: nat, j: nat, t: Timer, at: int, others: nat)
    requires IsRun(ws, es) && i < j < |ws| && es[i] == Add(t, at) && t.interval > 0 && others > 0
    requires forall e | e in es[..j] && e.Cancel? && e.h.addr == t.addr :: e.h == Returned(t, others)
    ensures InList(ws[j], t) || InBatch(ws[j], t)
    ensures Returned(t, others) !in ws[j].indexes
  {
    NeverLost(ws, es, i, j, t, at);
    InvAlways(ws, es, j);
    WrongHandleFindsNothing(ws[j], t, Returned(t, others));
  }

  /** The events that set the descriptor anew: adding a new earliest timer, and a flush that leaves one. */
  predicate Sets(w: World, e: Event) {
    match e
    case Add(t, _) => w.list == [] || t.when < w.list[0].when
    case EndBatch(_) => w.phase.Calling? && var v := Flush(w, w.phase.n, 0); v.list != [] && v.list[0].when != EPOCH
    case _ => false
  }

  /** The descriptor is set for the later of the time wanted and 100 microseconds from now, to the microsecond. */
  lemma ArmedWithin(when: int, now: int)
    ensures var d := Arm(when, now);
      && !d.readable && d.armed.Some? && d.lastReset == now
      && Max(when, now + 100 * 1000) - 1000 < d.armed.value <= Max(when, now + 100 * 1000)
  {
  }

  /** The event at step `j` sets the descriptor, and nothing has set it or let it expire since. */
  ghost predicate LastSet(ws: seq<World>, es: seq<Event>, j: nat, i: nat)
    requires i <= |es| <= |ws|
  {
    j < i && Sets(ws[j], es[j]) && forall k | j < k < i :: !Sets(ws[k], es[k]) && !es[k].Fire?
  }

  /** When a setting event happens. */
  function SetAt(e: Event): int {
    match e case Add(_, at) => at case EndBatch(at) => at case _ => 0
  }

  /** The later of the earliest pending expiration and 100 microseconds after `at`, to the microsecond. */
  predicate SoonEnough(v: World, at: int, armed: int) {
    v.list != [] &&
    var soonest := if v.list[0].when > at + 100 * 1000 then v.list[0].when else at + 100 * 1000;
    soonest - 1000 < armed <= soonest
  }

  lemma SetStep(w: World, e: Event)
    requires Inv(w) && Enabled(w, e)
    ensures var v := Step(w, e);
      if Sets(w, e) then v.fd.armed.Some? && SoonEnough(v, SetAt(e), v.fd.armed.value)
      else if e.Fire? then v.fd.armed.None?
      else v.fd.armed == w.fd.armed
  {
    match e
    case Add(t, at) =>
      ArmedWithin(t.when, at);
      assert forall x | x in w.list :: x.addr != t.addr;
      InsertSorted(w.list, t);
    case EndBatch(at) =>
      FlushExact(w, w.phase.n, 0);
      var v := Flush(w, w.phase.n, 0);
      if v.list != [] {
        ArmedWithin(v.list[0].when, at);
      }
    case _ =>
  }

  lemma LastSetNext(ws: seq<World>, es: seq<Event>, j: nat, i: nat)
    requires i < |es| <= |ws| && LastSet(ws, es, j, i) && !Sets(ws[i], es[i]) && !es[i].Fire?
    ensures LastSet(ws, es, j, i + 1)
  {
  }

  /** At every moment of every run, an armed descriptor has been set by some last add or flush, for the later of
      the earliest expiration then pending and 100 microseconds after that event, to the microsecond. */
  lemma {:induction false} ArmedExactly(ws: seq<World>, es: seq<Event>, i: nat) returns (j: nat)
    requires IsRun(ws, es) && i <= |es| && ws[i].fd.armed.Some?
    ensures LastSet(ws, es, j, i) && SoonEnough(ws[j + 1], SetAt(es[j]), ws[i].fd.armed.value)
  {
    ArmedStep(ws, es, i);
    if Sets(ws[i - 1], es[i - 1]) {
      j := i - 1;
    } else {
      j := ArmedExactly(ws, es, i - 1);
      LastSetNext(ws, es, j, i - 1);
    }
  }

  lemma ArmedStep(ws: seq<World>, es: seq<Event>, i: nat)
    requires IsRun(ws, es) && i <= |es| && ws[i].fd.armed.Some?
    ensures i > 0
    ensures if Sets(ws[i - 1], es[i - 1]) then LastSet(ws, es, i - 1, i) && SoonEnough(ws[i], SetAt(es[i - 1]), ws[i].fd.armed.value)
            else !es[i - 1].Fire? && ws[i].fd.armed == ws[i - 1].fd.armed
  {
    if i > 0 {
      InvAlways(ws, es, i - 1);
      SetStep(ws[i - 1], es[i - 1]);
    }
  }

  /** No expiry comes a microsecond or more before the time it was set for. */
  lemma ExpiryNotEarly(ws: seq<World>, es: seq<Event>, i: nat) returns (j: nat)
    requires IsRun(ws, es) && i < |es| && es[i].Fire?
    ensures LastSet(ws, es, j, i) && ws[j + 1].list != []
    ensures es[i].at > ws[j + 1].list[0].when - 1000 && es[i].at > SetAt(es[j]) + 99 * 1000
  {
    j := ArmedExactly(ws, es, i);
  }

  /** In no batch does a callback run after one with a later expiration. */
  lemma BatchOrdered(w: World, n: int, c: int)
    requires Inv(w) && Enabled(w, BeginBatch(n, c))
    ensures var b := Step(w, BeginBatch(n, c)).batch;
      forall i, j | 0 <= i < j < |b| :: b[i].Owned? && b[j].Owned? && b[i].t.when <= b[j].t.when
  {
    forall i, j | 0 <= i < j < Due(w.list, c) ensures w.list[i].when <= w.list[j].when {
      assert Before(w.list[i], w.list[j]);
    }
  }

  /** While a batch runs, its clock readings and its timers stay as they were at its beginning. */
  lemma {:induction false} BatchStays(ws: seq<World>, es: seq<Event>, b: nat, m: nat, n: int, c: int)
    requires IsRun(ws, es) && b < m <= |es| && es[b] == BeginBatch(n, c)
    requires forall k | b < k < m :: !es[k].EndBatch?
    ensures ws[m].phase.Calling? && ws[m].phase.n == n && ws[m].phase.c == c && ws[m].batch == ws[b + 1].batch
    decreases m
  {
    if m > b + 1 {
      BatchStays(ws, es, b, m - 1, n, c);
    }
  }

  /** A timer that is due at the beginning of a batch is in it to the end. */
  lemma DueStays(ws: seq<World>, es: seq<Event>, b: nat, m: nat, n: int, c: int, t: Timer) returns (k: nat)
    requires IsRun(ws, es) && b < m <= |es| && es[b] == BeginBatch(n, c)
    requires forall k | b < k < m :: !es[k].EndBatch?
    requires t in ws[b].list && t.when < c
    ensures k < |ws[m].batch| && ws[m].batch[k] == Owned(t) && ws[m].phase.Calling? && ws[m].phase.n == n
  {
    InvAlways(ws, es, b);
    BatchStays(ws, es, b, m, n, c);
    var due := ws[b].list[..Due(ws[b].list, c)];
    DueExact(ws[b].list, c);
    k :| 0 <= k < |due| && due[k] == t;
  }

  lemma BackAtEnd(w: World, at: int, k: nat)
    requires Inv(w) && Enabled(w, EndBatch(at)) && k < |w.batch| && w.batch[k].Owned?
    ensures var t, v := w.batch[k].t, Step(w, EndBatch(at));
      if t.interval > 0 && Key(t) !in w.waiting then Timer(t.index, t.addr, w.phase.n + 1000 * t.interval, t.interval) in v.list
      else forall x | x in v.list :: x.index != t.index
  {
    var n, t := w.phase.n, w.batch[k].t;
    FlushExact(w, n, 0);
    if t.interval > 0 && Key(t) !in w.waiting {
      assert PutBack(w, n, 0, Restarted(t, n));
    } else {
      forall x | x in Flush(w, n, 0).list ensures x.index != t.index {
        var i := Origin(w, n, x);
      }
    }
  }

  /** A repeating timer that was due at the beginning of a batch, and that no cancel has marked, is pending again
      at its end, with the batch's first clock reading plus its interval in microseconds as its expiration. A
      one-shot timer, or one that a cancel has marked, does not come back. */
  lemma NextExpiration(ws: seq<World>, es: seq<Event>, b: nat, m: nat, n: int, c: int, t: Timer)
    requires IsRun(ws, es) && b < m < |es| && es[b] == BeginBatch(n, c) && es[m].EndBatch?
    requires forall k | b < k < m :: !es[k].EndBatch?
    requires t in ws[b].list && t.when < c
    ensures if t.interval > 0 && Key(t) !in ws[m].waiting
            then Timer(t.index, t.addr, n + 1000 * t.interval, t.interval) in ws[m + 1].list
            else forall x | x in ws[m + 1].list :: x.index != t.index
  {
    var k := DueStays(ws, es, b, m, n, c, t);
    InvAlways(ws, es, m);
    BackAtEnd(ws[m], es[m].at, k);
  }

  ghost predicate ExpiredSince(ws: seq<World>, es: seq<Event>, i: nat)
    requires i <= |es| <= |ws|
  {
    exists j :: 0 <= j < i && es[j].Fire? && forall k | j < k < i :: !Sets(ws[k], es[k])
  }

  lemma ReadableStep(w: World, e: Event)
    requires Inv(w) && Enabled(w, e)
    ensures Step(w, e).fd.readable <==> e.Fire? || (w.fd.readable && !Sets(w, e))
  {
    if e.EndBatch? {
      FlushExact(w, w.phase.n, 0);
    }
  }

  /** The descriptor is readable if and only if it has expired and was not set since: reading it is nobody's
      business. */
  lemma {:induction false} ReadableExactly(ws: seq<World>, es: seq<Event>, i: nat)
    requires IsRun(ws, es) && i < |ws|
    ensures ws[i].fd.readable <==> ExpiredSince(ws, es, i)
  {
    if i > 0 {
      ReadableExactly(ws, es, i - 1);
      InvAlways(ws, es, i - 1);
      ReadableStep(ws[i - 1], es[i - 1]);
      SinceStep(ws, es, i);
    }
  }

  lemma SinceStep(ws: seq<World>, es: seq<Event>, i: nat)
    requires 0 < i <= |es| <= |ws|
    ensures ExpiredSince(ws, es, i)
       <==> es[i - 1].Fire? || (ExpiredSince(ws, es, i - 1) && !Sets(ws[i - 1], es[i - 1]))
  {
    if ExpiredSince(ws, es, i) && !es[i - 1].Fire? {
      var j :| 0 <= j < i && es[j].Fire? && forall k | j < k < i :: !Sets(ws[k], es[k]);
      assert j < i - 1;
    }
    if ExpiredSince(ws, es, i - 1) && !Sets(ws[i - 1], es[i - 1]) {
      var j :| 0 <= j < i - 1 && es[j].Fire? && forall k | j < k < i - 1 :: !Sets(ws[k], es[k]);
      assert forall k | j < k < i :: !Sets(ws[k], es[k]);
    }
  }

  predicate Drained(w: World) {
    w.list == [] && (w.phase.Calling? ==> w.batch == [])
  }

  /** When the last batch has left nothing pending, a readable descriptor stays readable until a timer is
      added: every poll returns at once, and every batch it starts is empty. */
  lemma {:induction false} SpinsUntilAdd(ws: seq<World>, es: seq<Event>, i: nat, j: nat)
    requires IsRun(ws, es) && i <= j < |ws| && ws[i].fd.readable && Drained(ws[i])
    requires forall k | i <= k < j :: !es[k].Add?
    ensures ws[j].fd.readable && Drained(ws[j])
    decreases j
  {
    if i < j {
      SpinsUntilAdd(ws, es, i, j - 1);
    }
  }
}
