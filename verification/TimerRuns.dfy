/** What holds over every run of the timer queue. */
module TimerRuns {
  import opened Bytes
  import opened Timers

  lemma AddKeeps(w: World, t: Timer, at: int)
    requires Inv(w) && Enabled(w, Add(t, at))
    ensures Inv(Step(w, Add(t, at)))
  {
    assert forall x | x in w.list :: x.addr != t.addr && x.index != t.index;
    InsertSorted(w.list, t);
    forall i | 0 <= i < |w.batch| && w.batch[i].Owned? ensures w.batch[i].t.addr != t.addr {
      assert w.batch[i] in w.batch;
    }
  }

  lemma CancelKeeps(w: World, h: Handle)
    requires Inv(w)
    ensures Inv(Step(w, Cancel(h)))
  {
    if h in w.indexes {
      RemoveExact(w.list, h);
      var r := Remove(w.list, h);
      assert Keys(r) == w.indexes - {h};
      if r != [] {
        assert r[0] in w.list;
      }
    }
  }

  lemma SortedUnique(list: seq<Timer>)
    requires Sorted(list)
    ensures forall i, j | 0 <= i < j < |list| :: list[i] != list[j]
  {
  }

  predicate Apart(a: Timer, b: Timer) {
    a.index != b.index && a.addr != b.addr
  }

  lemma PlacesApart(list: seq<Timer>)
    requires Sorted(list)
    requires forall x, y | x in list && y in list && (x.index == y.index || x.addr == y.addr) :: x == y
    ensures forall i, j | 0 <= i < j < |list| :: Apart(list[i], list[j])
  {
    SortedUnique(list);
    forall i, j | 0 <= i < j < |list| ensures Apart(list[i], list[j]) {
      assert list[i] in list && list[j] in list && list[i] != list[j];
    }
  }

  lemma SplitDistinct(v: World, list: seq<Timer>, k: nat)
    requires k <= |list| && v.batch == Own(list[..k]) && v.list == list[k..]
    requires forall i, j | 0 <= i < j < |list| :: Apart(list[i], list[j])
    ensures Distinct(v)
  {
    assert forall i | 0 <= i < k :: v.batch[i] == Owned(list[i]);
    forall x, i | x in v.list && 0 <= i < |v.batch| ensures Apart(x, v.batch[i].t) {
      var j :| 0 <= j < |v.list| && v.list[j] == x;
      assert Apart(list[i], list[k + j]);
    }
  }

  lemma BeginDistinct(w: World, n: int, c: int)
    requires Inv(w) && Enabled(w, BeginBatch(n, c))
    ensures Distinct(Step(w, BeginBatch(n, c)))
  {
    PlacesApart(w.list);
    SplitDistinct(Step(w, BeginBatch(n, c)), w.list, Due(w.list, c));
  }

  lemma BeginIndexes(w: World, n: int, c: int)
    requires Inv(w) && Enabled(w, BeginBatch(n, c))
    ensures var v := Step(w, BeginBatch(n, c)); v.indexes == Keys(v.list)
  {
  }

  lemma BeginKeeps(w: World, n: int, c: int)
    requires Inv(w) && Enabled(w, BeginBatch(n, c))
    ensures Inv(Step(w, BeginBatch(n, c)))
  {
    BeginDistinct(w, n, c);
    BeginIndexes(w, n, c);
    BeginArmed(w, n, c);
    BeginRest(w, n, c);
  }

  lemma BeginArmed(w: World, n: int, c: int)
    requires Inv(w) && Enabled(w, BeginBatch(n, c))
    ensures Armed(Step(w, BeginBatch(n, c)))
  {
  }

  lemma BeginRest(w: World, n: int, c: int)
    requires Inv(w) && Enabled(w, BeginBatch(n, c))
    ensures var v := Step(w, BeginBatch(n, c)); Sorted(v.list) && Numbered(v) && BatchOk(v)
  {
  }

  lemma Origin(w: World, n: int, x: Timer) returns (i: int)
    requires Flushed(w, n, 0, Flush(w, n, 0)) && x in Flush(w, n, 0).list
    ensures (i == -1 && x in w.list) || (0 <= i < |w.batch| && Restarts(w, i) && x == Restarted(w.batch[i].t, n))
  {
    i := -1;
    if x !in w.list {
      assert PutBack(w, n, 0, x);
      i :| 0 <= i < |w.batch| && Restarts(w, i) && x == Restarted(w.batch[i].t, n);
    }
  }

  lemma FlushDistinct(w: World, n: int)
    requires Distinct(w) && Numbered(w) && Flushed(w, n, 0, Flush(w, n, 0))
    ensures Distinct(Flush(w, n, 0)) && Numbered(Flush(w, n, 0))
  {
    var v := Flush(w, n, 0);
    forall x, y | x in v.list && y in v.list && (x.index == y.index || x.addr == y.addr) ensures x == y {
      var i := Origin(w, n, x);
      var j := Origin(w, n, y);
    }
    forall x, k | x in v.list && 0 <= k < |v.batch| && v.batch[k].Owned?
      ensures x.index != v.batch[k].t.index && x.addr != v.batch[k].t.addr
    {
      var i := Origin(w, n, x);
    }
    forall x | x in v.list ensures x.index in v.used {
      var i := Origin(w, n, x);
    }
  }

  /** Only a timer that was pending before the flush can have the epoch as its expiration. */
  lemma FlushEpoch(w: World, n: int)
    requires Inv(w) && n > 0 && Flushed(w, n, 0, Flush(w, n, 0))
    ensures var v := Flush(w, n, 0);
      v.list == [] || v.list[0].when != EPOCH || (w.list != [] && w.list[0].when == EPOCH)
  {
    var v := Flush(w, n, 0);
    if v.list != [] && v.list[0].when == EPOCH {
      var x := v.list[0];
      assert x in v.list && x in w.list;
      assert w.list[0] in v.list;
      assert forall j | 0 < j < |v.list| :: Before(v.list[0], v.list[j]);
      assert forall j | 0 < j < |w.list| :: Before(w.list[0], w.list[j]);
    }
  }

  /** The descriptor is set for the earliest timer, or was already when its time is the epoch. */
  lemma SetInv(w: World, v: World, at: int)
    requires Sorted(v.list) && v.indexes == Keys(v.list) && Distinct(v) && Numbered(v)
    requires v.list == [] || v.list[0].when != EPOCH || (w.list != [] && w.list[0].when == EPOCH)
    requires Armed(w) && v.fd == w.fd && at > 0
    ensures Inv(v.(phase := Idle, clock := at,
                   fd := if v.list != [] && v.list[0].when != EPOCH then Arm(v.list[0].when, at) else v.fd))
  {
  }

  lemma EndKeeps(w: World, at: int)
    requires Inv(w) && Enabled(w, EndBatch(at))
    ensures Inv(Step(w, EndBatch(at)))
  {
    FlushExact(w, w.phase.n, 0);
    FlushDistinct(w, w.phase.n);
    FlushEpoch(w, w.phase.n);
    SetInv(w, Flush(w, w.phase.n, 0), at);
  }

  /** Every action of the loop thread keeps the indexes in agreement, the ownership exclusive and the
      descriptor armed. */
  lemma StepKeeps(w: World, e: Event)
    requires Inv(w) && Enabled(w, e)
    ensures Inv(Step(w, e))
  {
    match e
    case Add(t, at) => AddKeeps(w, t, at);
    case Cancel(h) => CancelKeeps(w, h);
    case BeginBatch(n, c) => BeginKeeps(w, n, c);
    case RunNext =>
    case EndBatch(at) => EndKeeps(w, at);
    case Fire(at) =>
  }

  /** A run: the worlds between the events, from an empty queue. */
  ghost predicate IsRun(ws: seq<World>, es: seq<Event>) {
    && |ws| == |es| + 1
    && ws[0] == Start(ws[0].clock) && ws[0].clock > 0
    && forall i | 0 <= i < |es| :: Enabled(ws[i], es[i]) && ws[i + 1] == Step(ws[i], es[i])
  }

  /** The callback of `t` runs in this step. */
  predicate Runs(w: World, e: Event, t: Timer) {
    e.RunNext? && w.phase.Calling? && w.phase.pos < |w.batch| && w.batch[w.phase.pos] == Owned(t)
  }

  /** At every moment of every run; in particular a pending timer never waits on a descriptor that is set
      too late. */
  lemma {:induction false} InvAlways(ws: seq<World>, es: seq<Event>, i: nat)
    requires IsRun(ws, es) && i < |ws|
    ensures Inv(ws[i])
    ensures var w := ws[i]; w.list != [] && !w.fd.readable ==>
      w.fd.armed.Some? && forall t | t in w.list :: w.fd.armed.value <= Max(t.when, w.fd.lastReset + 100 * 1000)
  {
    if i > 0 {
      InvAlways(ws, es, i - 1);
      StepKeeps(ws[i - 1], es[i - 1]);
    }
    assert forall j | 0 < j < |ws[i].list| :: Before(ws[i].list[0], ws[i].list[j]);
  }

  /** No timer runs before its expiration, by the clock reading its batch was taken with. */
  lemma NeverEarly(ws: seq<World>, es: seq<Event>, i: nat, t: Timer)
    requires IsRun(ws, es) && i < |es| && Runs(ws[i], es[i], t)
    ensures t.when < ws[i].phase.c <= ws[i].clock
  {
    InvAlways(ws, es, i);
  }

  /** A number that can no longer run: it is out of the list, its batch entry has had its turn, and the
      entry will not go back. */
  ghost predicate Finished(w: World, id: int) {
    && id in w.used
    && (forall x | x in w.list :: x.index != id)
    && (forall k | 0 <= k < |w.batch| && w.batch[k].Owned? && w.batch[k].t.index == id ::
          (w.phase.Calling? ==> k < w.phase.pos) && !Restarts(w, k))
  }

  lemma FinishedStays(w: World, e: Event, id: int)
    requires Inv(w) && Enabled(w, e) && Finished(w, id)
    ensures Finished(Step(w, e), id)
    ensures forall t | Runs(w, e, t) :: t.index != id
  {
    match e
    case Add(t, at) =>
    case Cancel(h) =>
    case BeginBatch(n, c) => DueExact(w.list, c);
    case RunNext =>
    case EndBatch(at) => FlushExact(w, w.phase.n, 0);
    case Fire(at) =>
  }

  lemma {:induction false} FinishedForever(ws: seq<World>, es: seq<Event>, i: nat, j: nat, id: int)
    requires IsRun(ws, es) && i <= j < |ws| && Finished(ws[i], id)
    ensures Finished(ws[j], id)
    decreases j
  {
    if i < j {
      FinishedForever(ws, es, i, j - 1, id);
      InvAlways(ws, es, j - 1);
      FinishedStays(ws[j - 1], es[j - 1], id);
    }
  }

  lemma FinishedNeverRuns(ws: seq<World>, es: seq<Event>, i: nat, j: nat, id: int, t: Timer)
    requires IsRun(ws, es) && i <= j < |es| && Finished(ws[i], id) && Runs(ws[j], es[j], t)
    ensures t.index != id
  {
    FinishedForever(ws, es, i, j, id);
    InvAlways(ws, es, j);
    FinishedStays(ws[j], es[j], id);
  }

  /** A timer that runs twice is a repeating one. */
  lemma OneShotRunsOnce(ws: seq<World>, es: seq<Event>, i: nat, j: nat, t: Timer, u: Timer)
    requires IsRun(ws, es) && i < j < |es|
    requires Runs(ws[i], es[i], t) && Runs(ws[j], es[j], u) && t.index == u.index
    ensures t.interval > 0
  {
    InvAlways(ws, es, i);
    if !Repeats(t) {
      assert Finished(ws[i + 1], t.index);
      FinishedNeverRuns(ws, es, i + 1, j, t.index, u);
    }
  }

  /** A timer cancelled while it is pending never runs again. */
  lemma CancelledNeverRuns(ws: seq<World>, es: seq<Event>, i: nat, j: nat, h: Handle, t: Timer)
    requires IsRun(ws, es) && i < j < |es|
    requires es[i] == Cancel(h) && h in ws[i].indexes && Runs(ws[j], es[j], t)
    ensures t.index != h.index
  {
    InvAlways(ws, es, i);
    InvAlways(ws, es, i + 1);
    RemoveExact(ws[i].list, h);
    assert Finished(ws[i + 1], h.index);
    FinishedNeverRuns(ws, es, i + 1, j, h.index, t);
  }

  /** Cancelled while its batch runs: it may still have its turn, but it will not go back. */
  ghost predicate Doomed(w: World, h: Handle) {
    && h in w.waiting && h.index in w.used
    && (forall x | x in w.list :: x.index != h.index)
    && (forall k | 0 <= k < |w.batch| && w.batch[k].Owned? && w.batch[k].t.index == h.index :: Key(w.batch[k].t) == h)
  }

  lemma DoomedStays(w: World, e: Event, h: Handle)
    requires Inv(w) && Enabled(w, e) && Doomed(w, h)
    ensures Doomed(Step(w, e), h)
  {
    match e
    case Add(t, at) =>
    case Cancel(g) =>
    case BeginBatch(n, c) => DueExact(w.list, c);
    case RunNext =>
    case EndBatch(at) => FlushExact(w, w.phase.n, 0);
    case Fire(at) =>
  }

  lemma {:induction false} DoomedForever(ws: seq<World>, es: seq<Event>, i: nat, j: nat, h: Handle)
    requires IsRun(ws, es) && i <= j < |ws| && Doomed(ws[i], h)
    ensures Doomed(ws[j], h)
    decreases j
  {
    if i < j {
      DoomedForever(ws, es, i, j - 1, h);
      InvAlways(ws, es, j - 1);
      DoomedStays(ws[j - 1], es[j - 1], h);
    }
  }

  /** A timer cancelled during its batch never runs after that batch has ended, at step `m`. */
  lemma CancelledInBatchNeverRunsLater(
    ws: seq<World>, es: seq<Event>, i: nat, m: nat, j: nat, h: Handle, k: nat, t: Timer)
    requires IsRun(ws, es) && i < m < j < |es|
    requires es[i] == Cancel(h) && ws[i].phase.Calling? && k < |ws[i].batch| && ws[i].batch[k].Owned?
    requires Key(ws[i].batch[k].t) == h
    requires es[m].EndBatch? && Runs(ws[j], es[j], t)
    ensures t.index != h.index
  {
    InvAlways(ws, es, i);
    assert h !in ws[i].indexes;
    assert Doomed(ws[i + 1], h);
    DoomedForever(ws, es, i + 1, m + 1, h);
    InvAlways(ws, es, m);
    FlushExact(ws[m], ws[m].phase.n, 0);
    assert Finished(ws[m + 1], h.index);
    FinishedNeverRuns(ws, es, m + 1, j, h.index, t);
  }

  /** Only a cancel during a batch puts a handle among the waiting ones. */
  lemma {:induction false} WaitingWasCancelled(ws: seq<World>, es: seq<Event>, i: nat, h: Handle)
    requires IsRun(ws, es) && i < |ws| && h in ws[i].waiting
    ensures exists k :: 0 <= k < i && es[k] == Cancel(h) && ws[k].phase.Calling?
  {
    if i > 0 {
      if h in ws[i - 1].waiting {
        WaitingWasCancelled(ws, es, i - 1, h);
      } else {
        WaitingStep(ws, es, i - 1, h);
        assert es[i - 1] == Cancel(h) && ws[i - 1].phase.Calling?;
      }
    }
  }

  lemma WaitingStep(ws: seq<World>, es: seq<Event>, i: nat, h: Handle)
    requires IsRun(ws, es) && i < |es|
    ensures h in ws[i].waiting ==> h in ws[i + 1].waiting
    ensures h in ws[i + 1].waiting && h !in ws[i].waiting ==> es[i] == Cancel(h) && ws[i].phase.Calling?
  {
    InvAlways(ws, es, i);
    if es[i].EndBatch? {
      FlushExact(ws[i], ws[i].phase.n, 0);
    }
  }

  lemma {:induction false} WaitsForever(ws: seq<World>, es: seq<Event>, i: nat, j: nat, h: Handle)
    requires IsRun(ws, es) && i <= j < |ws| && h in ws[i].waiting
    ensures h in ws[j].waiting
    decreases j
  {
    if i < j {
      WaitsForever(ws, es, i, j - 1, h);
      WaitingStep(ws, es, j - 1, h);
    }
  }

  ghost predicate InList(w: World, t: Timer) {
    exists x :: x in w.list && Key(x) == Key(t) && x.interval == t.interval
  }

  /** In the running batch, and either yet to run or to go back afterwards. */
  ghost predicate InBatch(w: World, t: Timer) {
    w.phase.Calling? && exists k :: 0 <= k < |w.batch| && Holds(w, k, t)
  }

  predicate Holds(w: World, k: nat, t: Timer)
    requires k < |w.batch| && w.phase.Calling?
  {
    && w.batch[k].Owned? && Key(w.batch[k].t) == Key(t) && w.batch[k].t.interval == t.interval
    && (k >= w.phase.pos || Repeats(t))
  }

  ghost predicate RanBetween(ws: seq<World>, es: seq<Event>, i: nat, j: nat, t: Timer)
    requires i <= j <= |es| <= |ws|
  {
    exists k, u :: i <= k < j && Runs(ws[k], es[k], u) && u.index == t.index
  }

  lemma KeptStep(w: World, e: Event, t: Timer)
    requires Inv(w) && Enabled(w, e) && e != Cancel(Key(t)) && Key(t) !in w.waiting
    requires InList(w, t) || InBatch(w, t)
    ensures var v := Step(w, e);
      InList(v, t) || InBatch(v, t) || (t.interval <= 0 && exists u :: Runs(w, e, u) && u.index == t.index)
  {
    var v := Step(w, e);
    match e
    case Add(s, at) =>
      if InBatch(w, t) {
        var k :| 0 <= k < |w.batch| && Holds(w, k, t);
        assert Holds(v, k, t);
      }
    case Cancel(h) =>
      if InList(w, t) && h in w.indexes {
        RemoveExact(w.list, h);
        assert InList(v, t);
      }
      if InBatch(w, t) {
        var k :| 0 <= k < |w.batch| && Holds(w, k, t);
        assert Holds(v, k, t);
      }
    case BeginBatch(n, c) =>
      var x :| x in w.list && Key(x) == Key(t) && x.interval == t.interval;
      DueExact(w.list, c);
      if x.when < c {
        var k :| 0 <= k < Due(w.list, c) && w.list[..Due(w.list, c)][k] == x;
        assert v.batch[k] == Owned(x) && Holds(v, k, t);
      }
    case RunNext =>
      if InBatch(w, t) {
        var k :| 0 <= k < |w.batch| && Holds(w, k, t);
        assert k == w.phase.pos ==> Runs(w, e, w.batch[k].t);
        assert k != w.phase.pos || Repeats(t) ==> Holds(v, k, t);
      }
    case EndBatch(at) =>
      FlushExact(w, w.phase.n, 0);
      if InBatch(w, t) {
        var k :| 0 <= k < |w.batch| && Holds(w, k, t);
        assert Restarts(w, k);
        assert PutBack(w, w.phase.n, 0, Restarted(w.batch[k].t, w.phase.n));
      }
    case Fire(at) =>
      if InBatch(w, t) {
        var k :| 0 <= k < |w.batch| && Holds(w, k, t);
        assert Holds(v, k, t);
      }
  }

  /** Up to step `j` the timer that step `i` adds is cancelled at most before that, and outside of batches: such
      a cancel finds nothing and is forgotten. */
  ghost predicate Undisturbed(ws: seq<World>, es: seq<Event>, i: nat, j: nat, h: Handle)
    requires j <= |es| <= |ws|
  {
    forall k | 0 <= k < j && es[k] == Cancel(h) :: k < i && ws[k].phase.Idle?
  }

  /** Never missed: an added timer that nobody cancels stays pending, in the list or in the running batch,
      for ever if it repeats and until it runs if it does not. The never emptied waiting set does not get
      in the way. */
  lemma {:induction false} NeverLost(ws: seq<World>, es: seq<Event>, i: nat, j: nat, t: Timer, at: int)
    requires IsRun(ws, es) && i < j < |ws|
    requires es[i] == Add(t, at) && Undisturbed(ws, es, i, j, Key(t))
    ensures InList(ws[j], t) || InBatch(ws[j], t) || (t.interval <= 0 && RanBetween(ws, es, i, j, t))
    decreases j
  {
    if j == i + 1 {
      assert t in ws[j].list;
    } else {
      NeverLost(ws, es, i, j - 1, t, at);
      if InList(ws[j - 1], t) || InBatch(ws[j - 1], t) {
        NeverLostStep(ws, es, i, j, t);
      } else {
        var k, u :| i <= k < j - 1 && Runs(ws[k], es[k], u) && u.index == t.index;
        assert RanBetween(ws, es, i, j, t);
      }
    }
  }

  lemma NeverLostStep(ws: seq<World>, es: seq<Event>, i: nat, j: nat, t: Timer)
    requires IsRun(ws, es) && i < j - 1 < |es| && Undisturbed(ws, es, i, j, Key(t))
    requires InList(ws[j - 1], t) || InBatch(ws[j - 1], t)
    ensures InList(ws[j], t) || InBatch(ws[j], t) || (t.interval <= 0 && RanBetween(ws, es, i, j, t))
  {
    InvAlways(ws, es, j - 1);
    if Key(t) in ws[j - 1].waiting {
      WaitingWasCancelled(ws, es, j - 1, Key(t));
    }
    KeptStep(ws[j - 1], es[j - 1], t);
    if !InList(ws[j], t) && !InBatch(ws[j], t) {
      var u :| Runs(ws[j - 1], es[j - 1], u) && u.index == t.index;
      assert RanBetween(ws, es, i, j, t);
    }
  }

  /** When no batch runs, that means in the list, with both indexes agreeing. */
  lemma PendingWhenIdle(ws: seq<World>, es: seq<Event>, i: nat, j: nat, t: Timer, at: int)
    requires IsRun(ws, es) && i < j < |ws| && ws[j].phase.Idle?
    requires es[i] == Add(t, at) && Undisturbed(ws, es, i, j, Key(t)) && t.interval > 0
    ensures Key(t) in ws[j].indexes && InList(ws[j], t)
  {
    NeverLost(ws, es, i, j, t, at);
    InvAlways(ws, es, j);
  }

  /** Waiting to be deleted, while its number is only ever found with its own address. */
  ghost predicate Marked(w: World, h: Handle) {
    && h in w.waiting && h.index in w.used
    && (forall x | x in w.list && x.index == h.index :: Key(x) == h)
    && (forall k | 0 <= k < |w.batch| && w.batch[k].Owned? && w.batch[k].t.index == h.index :: Key(w.batch[k].t) == h)
  }

  lemma MarkedStays(w: World, e: Event, h: Handle)
    requires Inv(w) && Enabled(w, e) && Marked(w, h)
    ensures Marked(Step(w, e), h)
  {
    match e
    case Add(t, at) =>
    case Cancel(g) =>
    case BeginBatch(n, c) => DueExact(w.list, c);
    case RunNext =>
    case EndBatch(at) => FlushExact(w, w.phase.n, 0);
    case Fire(at) =>
  }

  lemma {:induction false} MarkedForever(ws: seq<World>, es: seq<Event>, i: nat, j: nat, h: Handle)
    requires IsRun(ws, es) && i <= j < |ws| && Marked(ws[i], h)
    ensures Marked(ws[j], h)
    decreases j
  {
    if i < j {
      MarkedForever(ws, es, i, j - 1, h);
      InvAlways(ws, es, j - 1);
      MarkedStays(ws[j - 1], es[j - 1], h);
    }
  }

  /** A cancel that comes during a batch, before the timer's queued add has reached the loop, is not forgotten:
      the timer is added all the same, but runs at most once, even if it repeats. */
  lemma CancelledBeforeAddRunsOnce(
    ws: seq<World>, es: seq<Event>, c: nat, i: nat, j: nat, k: nat, t: Timer, at: int, u: Timer, v: Timer)
    requires IsRun(ws, es) && c < i < |es| && i < j < k < |es|
    requires es[c] == Cancel(Key(t)) && ws[c].phase.Calling? && es[i] == Add(t, at)
    requires Runs(ws[j], es[j], u) && u.index == t.index && Runs(ws[k], es[k], v)
    ensures v.index != t.index
  {
    NotYetIndexed(ws, es, c, i, t, at);
    WaitsForever(ws, es, c + 1, i + 1, Key(t));
    InvAlways(ws, es, i);
    assert Marked(ws[i + 1], Key(t));
    MarkedForever(ws, es, i + 1, j, Key(t));
    InvAlways(ws, es, j);
    assert Finished(ws[j + 1], t.index);
    FinishedNeverRuns(ws, es, j + 1, k, t.index, v);
  }

  lemma UsedStays(w: World, e: Event)
    requires Inv(w) && Enabled(w, e)
    ensures w.used <= Step(w, e).used
  {
    if e.EndBatch? {
      FlushExact(w, w.phase.n, 0);
    }
  }

  lemma {:induction false} UsedForever(ws: seq<World>, es: seq<Event>, i: nat, j: nat, id: int)
    requires IsRun(ws, es) && i <= j < |ws| && id in ws[i].used
    ensures id in ws[j].used
    decreases j
  {
    if i < j {
      UsedForever(ws, es, i, j - 1, id);
      InvAlways(ws, es, j - 1);
      UsedStays(ws[j - 1], es[j - 1]);
    }
  }

  /** Before its add a timer's number is in no index, so that a cancel finds nothing. */
  lemma NotYetIndexed(ws: seq<World>, es: seq<Event>, c: nat, i: nat, t: Timer, at: int)
    requires IsRun(ws, es) && c < i < |es| && es[i] == Add(t, at)
    ensures Key(t) !in ws[c].indexes
  {
    InvAlways(ws, es, c);
    if t.index in ws[c].used {
      UsedForever(ws, es, c, i, t.index);
    }
  }

  /** So for a repeating timer that is not cancelled any more once it is added: it is pending for ever if all
      earlier cancels came outside of batches, and runs at most once if one came during a batch. */
  lemma EarlyCancelExactly(
    ws: seq<World>, es: seq<Event>, i: nat, j: nat, t: Timer, at: int)
    requires IsRun(ws, es) && i < j < |ws| && es[i] == Add(t, at) && t.interval > 0
    requires forall k | 0 <= k < j && es[k] == Cancel(Key(t)) :: k < i
    ensures Undisturbed(ws, es, i, j, Key(t)) ==> InList(ws[j], t) || InBatch(ws[j], t)
    ensures !Undisturbed(ws, es, i, j, Key(t)) ==>
      forall a, b, u, v | i < a < b < |es| && Runs(ws[a], es[a], u) && Runs(ws[b], es[b], v) && u.index == t.index ::
        v.index != t.index
  {
    if Undisturbed(ws, es, i, j, Key(t)) {
      NeverLost(ws, es, i, j, t, at);
    } else {
      var c :| 0 <= c < j && es[c] == Cancel(Key(t)) && !(c < i && ws[c].phase.Idle?);
      forall a, b, u, v | i < a < b < |es| && Runs(ws[a], es[a], u) && Runs(ws[b], es[b], v) && u.index == t.index
        ensures v.index != t.index
      {
        CancelledBeforeAddRunsOnce(ws, es, c, i, a, b, t, at, u, v);
      }
    }
  }

  /** After a run in the batch with readings n and c, the same timer expires no earlier than n plus its
      interval, and every later batch it is in has read its clock at or after c. */
  ghost predicate Spaced(w: World, id: int, n: int, c: int, interval: int) {
    && id in w.used && c <= w.clock
    && (forall x | x in w.list && x.index == id :: x.interval == interval && x.when >= n + 1000 * interval)
    && (forall k | w.phase.Calling? && 0 <= k < |w.batch| && w.batch[k].Owned? && w.batch[k].t.index == id ::
          w.batch[k].t.interval == interval &&
          ((k < w.phase.pos && w.phase.n == n)
           || (w.phase.n >= c && w.batch[k].t.when >= n + 1000 * interval)))
  }

  lemma SpacedStays(w: World, e: Event, id: int, n: int, c: int, interval: int)
    requires Inv(w) && Enabled(w, e) && Spaced(w, id, n, c, interval) && n <= c
    ensures Spaced(Step(w, e), id, n, c, interval)
  {
    match e
    case Add(t, at) =>
    case Cancel(h) =>
    case BeginBatch(m, d) => DueExact(w.list, d);
    case RunNext =>
    case EndBatch(at) => FlushExact(w, w.phase.n, 0);
    case Fire(at) =>
  }

  lemma {:induction false} SpacedForever(
    ws: seq<World>, es: seq<Event>, i: nat, j: nat, id: int, n: int, c: int, interval: int)
    requires IsRun(ws, es) && i <= j < |ws| && Spaced(ws[i], id, n, c, interval) && n <= c
    ensures Spaced(ws[j], id, n, c, interval)
    decreases j
  {
    if i < j {
      SpacedForever(ws, es, i, j - 1, id, n, c, interval);
      InvAlways(ws, es, j - 1);
      SpacedStays(ws[j - 1], es[j - 1], id, n, c, interval);
    }
  }

  /** Two runs of one timer: the later batch reads both clocks late enough. */
  lemma TwoRuns(ws: seq<World>, es: seq<Event>, i: nat, j: nat, t: Timer, u: Timer)
    requires IsRun(ws, es) && i < j < |es|
    requires Runs(ws[i], es[i], t) && Runs(ws[j], es[j], u) && t.index == u.index
    ensures u.interval == t.interval
    ensures ws[j].phase.n >= ws[i].phase.c
    ensures ws[j].phase.c > ws[i].phase.n + 1000 * t.interval
  {
    InvAlways(ws, es, i);
    InvAlways(ws, es, j);
    var p := ws[i].phase;
    assert Spaced(ws[i + 1], t.index, p.n, p.c, t.interval);
    SpacedForever(ws, es, i + 1, j, t.index, p.n, p.c, t.interval);
  }

  ghost predicate RunsAt(ws: seq<World>, es: seq<Event>, ks: seq<nat>, ts: seq<Timer>)
    requires |ws| == |es| + 1
  {
    && |ks| == |ts|
    && (forall a | 0 <= a < |ks| :: ks[a] < |es| && Runs(ws[ks[a]], es[ks[a]], ts[a]) && ts[a].index == ts[0].index)
    && (forall a, b | 0 <= a < b < |ks| :: ks[a] < ks[b])
  }

  /** A timer that runs m + 1 times needs more than m/2 intervals, rounded up, between the first batch's
      first clock reading and the last batch's second one. */
  lemma {:induction false} Spacing(ws: seq<World>, es: seq<Event>, ks: seq<nat>, ts: seq<Timer>)
    requires IsRun(ws, es) && |ks| >= 2 && RunsAt(ws, es, ks, ts)
    ensures ws[ks[|ks| - 1]].phase.c > ws[ks[0]].phase.n + (|ks| / 2) * (1000 * ts[0].interval)
    decreases |ks|
  {
    var m := |ks| - 1;
    InvAlways(ws, es, ks[0]);
    TwoRuns(ws, es, ks[0], ks[1], ts[0], ts[1]);
    if m == 2 {
      TwoRuns(ws, es, ks[1], ks[2], ts[1], ts[2]);
    } else if m >= 3 {
      TwoRuns(ws, es, ks[1], ks[2], ts[1], ts[2]);
      Spacing(ws, es, ks[2..], ts[2..]);
      TwoRuns(ws, es, ks[0], ks[2], ts[0], ts[2]);
      var step := 1000 * ts[0].interval;
      assert |ks| / 2 == |ks[2..]| / 2 + 1;
      assert (|ks[2..]| / 2 + 1) * step == (|ks[2..]| / 2) * step + step;
    }
  }
}
