/** muduo_se/net/EventLoop.{h,cc}: handing functors to the loop thread and waking it from its poll. */
module EventLoops {

  /** Where the loop thread is. Handling(ready): after a poll, and the wake channel is still to be handled
      if `ready`. Running: inside dopendfunc, between taking the batch and clearing the flag. */
  datatype Place = Polling | Handling(ready: bool) | Running

  /** `counter` is the eventfd's value and `owed` how many producers are between their push and their wake. */
  datatype Loop<F> = Loop(
    pending: seq<F>, batch: seq<F>, executed: seq<F>, pushed: seq<F>, counter: nat, owed: nat, place: Place)

  datatype Action<F> =
    | Push(f: F)
    | Wake
    | PushInLoop(f: F)
    | PollReturns(ready: bool)
    | HandleWake
    | TakeBatch
    | Execute
    | Done

  predicate Enabled<F>(s: Loop<F>, a: Action<F>) {
    match a
    case Push(_) => true
    case Wake => s.owed > 0
    case PushInLoop(_) => !s.place.Polling?
    case PollReturns(ready) => s.place.Polling? && (ready ==> s.counter > 0)
    case HandleWake => s.place == Handling(true)
    case TakeBatch => s.place == Handling(false)
    case Execute => s.place.Running? && |s.batch| > 0
    case Done => s.place.Running? && |s.batch| == 0
  }

  function Step<F>(s: Loop<F>, a: Action<F>): Loop<F>
    requires Enabled(s, a)
  {
    match a
    case Push(f) => s.(pending := s.pending + [f], pushed := s.pushed + [f], owed := s.owed + 1)
    case Wake => s.(owed := s.owed - 1, counter := s.counter + 1)
    case PushInLoop(f) =>
      s.(pending := s.pending + [f], pushed := s.pushed + [f],
         counter := if s.place.Running? then s.counter + 1 else s.counter)
    case PollReturns(ready) => s.(place := Handling(ready))
    case HandleWake => s.(counter := 0, place := Handling(false))
    case TakeBatch => s.(batch := s.pending, pending := [], place := Running)
    case Execute => s.(executed := s.executed + [s.batch[0]], batch := s.batch[1..])
    case Done => s.(place := Polling)
  }

  /** Everything pushed is executed, in the batch or pending, in that order; and unless the loop is about to
      take the batch anyway, pending work comes with a wakeup, delivered or on its way. */
  predicate Inv<F(==)>(s: Loop<F>) {
    && s.pushed == s.executed + s.batch + s.pending
    && (!s.place.Running? ==> s.batch == [])
    && (!s.place.Handling? && s.pending != [] ==> s.counter > 0 || s.owed > 0)
  }

  lemma StepKeeps<F>(s: Loop<F>, a: Action<F>)
    requires Inv(s) && Enabled(s, a)
    ensures Inv(Step(s, a))
  {
  }

  function Start<F>(): Loop<F> {
    Loop([], [], [], [], 0, 0, Polling)
  }

  ghost predicate IsRun<F(!new)>(ss: seq<Loop<F>>, acts: seq<Action<F>>) {
    && |ss| == |acts| + 1 && ss[0] == Start()
    && forall i | 0 <= i < |acts| :: Enabled(ss[i], acts[i]) && ss[i + 1] == Step(ss[i], acts[i])
  }

  lemma {:induction false} InvAlways<F(!new)>(ss: seq<Loop<F>>, acts: seq<Action<F>>, i: nat)
    requires IsRun(ss, acts) && i < |ss|
    ensures Inv(ss[i])
  {
    if i > 0 {
      InvAlways(ss, acts, i - 1);
      StepKeeps(ss[i - 1], acts[i - 1]);
    }
  }

  /** The k-th functor to be executed is the k-th one that was pushed, for any number of threads. */
  lemma OnceAndInOrder<F(!new)>(ss: seq<Loop<F>>, acts: seq<Action<F>>, i: nat)
    requires IsRun(ss, acts) && i < |ss|
    ensures ss[i].executed <= ss[i].pushed
    ensures |ss[i].pushed| == |ss[i].executed| + |ss[i].batch| + |ss[i].pending|
  {
    InvAlways(ss, acts, i);
  }

  /** The loop never sleeps on work: at its poll with work pending and no producer about to wake it, the
      poll can return with the wake channel ready at once. */
  lemma NoLostWakeup<F(!new)>(ss: seq<Loop<F>>, acts: seq<Action<F>>, i: nat)
    requires IsRun(ss, acts) && i < |ss|
    requires ss[i].place.Polling? && ss[i].pending != [] && ss[i].owed == 0
    ensures Enabled(ss[i], PollReturns(true))
  {
    InvAlways(ss, acts, i);
  }

  /** The functors pushed, in order, and how many turns of the batch's loop there were. */
  function Functors<F>(acts: seq<Action<F>>): seq<F> {
    if acts == [] then []
    else match acts[|acts| - 1]
      case Push(f) => Functors(acts[..|acts| - 1]) + [f]
      case PushInLoop(f) => Functors(acts[..|acts| - 1]) + [f]
      case _ => Functors(acts[..|acts| - 1])
  }

  function Turns<F>(acts: seq<Action<F>>): nat {
    if acts == [] then 0 else Turns(acts[..|acts| - 1]) + if acts[|acts| - 1].Execute? then 1 else 0
  }

  lemma {:induction false} ExecutedCount<F(!new)>(ss: seq<Loop<F>>, acts: seq<Action<F>>, i: nat)
    requires IsRun(ss, acts) && i <= |acts|
    ensures ss[i].pushed == Functors(acts[..i]) && |ss[i].executed| == Turns(acts[..i])
  {
    if i > 0 {
      ExecutedCount(ss, acts, i - 1);
      assert acts[..i][..i - 1] == acts[..i - 1];
    }
  }

  /** The functors executed are as many of those pushed, from the first on, as the loops over the batches have
      made turns. */
  lemma ExecutedExactly<F(!new)>(ss: seq<Loop<F>>, acts: seq<Action<F>>, i: nat)
    requires IsRun(ss, acts) && i <= |acts|
    ensures ss[i].executed <= Functors(acts[..i]) && |ss[i].executed| == Turns(acts[..i])
  {
    ExecutedCount(ss, acts, i);
    OnceAndInOrder(ss, acts, i);
  }

  /** A wake by another thread after its push, or one by a functor of the batch. */
  predicate Wakes<F>(s: Loop<F>, a: Action<F>) {
    a.Wake? || (a.PushInLoop? && s.place.Running?)
  }

  ghost predicate WokenSince<F(!new)>(ss: seq<Loop<F>>, acts: seq<Action<F>>, i: nat)
    requires i <= |acts| <= |ss|
  {
    exists j :: 0 <= j < i && Wakes(ss[j], acts[j]) && forall k | j < k < i :: !acts[k].HandleWake?
  }

  lemma WokenNext<F(!new)>(ss: seq<Loop<F>>, acts: seq<Action<F>>, i: nat)
    requires i < |acts| <= |ss|
    ensures WokenSince(ss, acts, i + 1)
       <==> Wakes(ss[i], acts[i]) || (WokenSince(ss, acts, i) && !acts[i].HandleWake?)
  {
    if WokenSince(ss, acts, i + 1) && !Wakes(ss[i], acts[i]) {
      var j :| 0 <= j < i + 1 && Wakes(ss[j], acts[j]) && forall k | j < k < i + 1 :: !acts[k].HandleWake?;
      assert j < i;
    }
    if WokenSince(ss, acts, i) && !acts[i].HandleWake? {
      var j :| 0 <= j < i && Wakes(ss[j], acts[j]) && forall k | j < k < i :: !acts[k].HandleWake?;
      assert forall k | j < k < i + 1 :: !acts[k].HandleWake?;
    }
  }

  /** The wake channel is ready exactly if a wake has come since it was last handled. */
  lemma {:induction false} ReadyExactly<F(!new)>(ss: seq<Loop<F>>, acts: seq<Action<F>>, i: nat)
    requires IsRun(ss, acts) && i <= |acts|
    ensures ss[i].counter > 0 <==> WokenSince(ss, acts, i)
  {
    if i > 0 {
      ReadyExactly(ss, acts, i - 1);
      WokenNext(ss, acts, i - 1);
    }
  }

  /** What is pending when a batch is taken is executed by the time the loop polls again. */
  lemma BatchIsDone<F(!new)>(ss: seq<Loop<F>>, acts: seq<Action<F>>, i: nat, j: nat)
    requires IsRun(ss, acts) && i < j < |ss|
    requires acts[i].TakeBatch? && ss[j].place.Polling?
    ensures ss[i].pushed <= ss[j].executed
  {
    var d := FirstDone(ss, acts, i + 1, j);
    InvAlways(ss, acts, i);
    Grows(ss, acts, d + 1, j);
    BatchKept(ss, acts, i + 1, d);
    InvAlways(ss, acts, d);
    InvAlways(ss, acts, i + 1);
  }

  /** The functors of the running batch, done and to do. */
  function Taken<F>(s: Loop<F>): seq<F> { s.executed + s.batch }

  lemma {:induction false} BatchKept<F(!new)>(ss: seq<Loop<F>>, acts: seq<Action<F>>, i: nat, j: nat)
    requires IsRun(ss, acts) && i <= j < |ss| && ss[i].place.Running?
    requires forall k | i <= k < j :: !acts[k].Done?
    ensures ss[j].place.Running? && Taken(ss[j]) == Taken(ss[i])
    decreases j
  {
    if i < j {
      BatchKept(ss, acts, i, j - 1);
      var s := ss[j - 1];
      if acts[j - 1].Execute? {
        assert s.executed + s.batch == s.executed + [s.batch[0]] + s.batch[1..];
      }
    }
  }

  lemma {:induction false} Grows<F(!new)>(ss: seq<Loop<F>>, acts: seq<Action<F>>, i: nat, j: nat)
    requires IsRun(ss, acts) && i <= j < |ss|
    ensures ss[i].executed <= ss[j].executed
    decreases j
  {
    if i < j {
      Grows(ss, acts, i, j - 1);
    }
  }

  lemma {:induction false} FirstDone<F(!new)>(ss: seq<Loop<F>>, acts: seq<Action<F>>, i: nat, j: nat) returns (d: nat)
    requires IsRun(ss, acts) && i <= j < |ss| && ss[i].place.Running? && ss[j].place.Polling?
    ensures i <= d < j && acts[d].Done? && forall k | i <= k < d :: !acts[k].Done?
    decreases j - i
  {
    if acts[i].Done? {
      d := i;
    } else {
      d := FirstDone(ss, acts, i + 1, j);
    }
  }

  ghost predicate AllEnabled<F>(s: Loop<F>, acts: seq<Action<F>>)
    decreases |acts|
  {
    acts == [] || (Enabled(s, acts[0]) && AllEnabled(Step(s, acts[0]), acts[1..]))
  }

  ghost function RunActions<F>(s: Loop<F>, acts: seq<Action<F>>): Loop<F>
    requires AllEnabled(s, acts)
    decreases |acts|
  {
    if acts == [] then s else RunActions(Step(s, acts[0]), acts[1..])
  }

  /** The worlds that the loop's methods pass through from the start are a run. */
  lemma {:induction false} ActionsAreRun<F(!new)>(s: Loop<F>, acts: seq<Action<F>>) returns (ss: seq<Loop<F>>)
    requires AllEnabled(s, acts)
    ensures |ss| == |acts| + 1 && ss[0] == s && ss[|acts|] == RunActions(s, acts)
    ensures forall i | 0 <= i < |acts| :: Enabled(ss[i], acts[i]) && ss[i + 1] == Step(ss[i], acts[i])
    ensures s == Start() ==> IsRun(ss, acts)
    decreases |acts|
  {
    if acts == [] {
      ss := [s];
    } else {
      var tail := ActionsAreRun(Step(s, acts[0]), acts[1..]);
      ss := [s] + tail;
    }
  }

  /** What other threads, or the functors themselves, do while the batch runs. */
  predicate FromOthers<F>(acts: seq<Action<F>>) {
    forall i | 0 <= i < |acts| :: acts[i].Push? || acts[i].Wake? || acts[i].PushInLoop?
  }

  /** The batch, functor by functor, each with what happens meanwhile. */
  function BatchActions<F>(script: seq<seq<Action<F>>>): seq<Action<F>> {
    if script == [] then [] else [Execute] + script[0] + BatchActions(script[1..])
  }

  lemma BatchCons<F>(script: seq<seq<Action<F>>>, i: nat, end: seq<Action<F>>)
    requires i < |script|
    ensures BatchActions(script[i..]) + end == [Execute] + (script[i] + (BatchActions(script[i + 1..]) + end))
  {
    assert script[i..][1..] == script[i + 1..];
  }

  lemma NoneLeft<F>(script: seq<seq<Action<F>>>, end: seq<Action<F>>)
    ensures BatchActions(script[|script|..]) + end == end
  {
  }

  lemma Moved<F>(a: seq<F>, f: F, b: seq<F>)
    ensures a + [f] + b == a + ([f] + b)
  {
  }

  class EventLoop<F> {
    var pendfunclists: seq<F>
    var temp: seq<F>
    var dopendfunc: bool
    ghost var eventfd: nat
    ghost var state: Loop<F>

    ghost predicate Valid()
      reads this
    {
      && pendfunclists == state.pending && temp == state.batch && eventfd == state.counter
      && dopendfunc == state.place.Running?
    }

    constructor ()
      ensures Valid() && state == Start()
    {
      pendfunclists, temp, dopendfunc, eventfd, state := [], [], false, 0, Start();
    }

    /** The locked part of queueloop. `wake` answers whether the caller has to write to the eventfd. */
    method QueueLoop(f: F, inLoop: bool) returns (wake: bool)
      requires Valid() && (inLoop ==> Enabled(state, PushInLoop(f)))
      modifies `pendfunclists, `eventfd, `state
      ensures Valid() && state == Step(old(state), if inLoop then PushInLoop(f) else Push(f))
      ensures wake == (!inLoop || dopendfunc)
    {
      pendfunclists := pendfunclists + [f];
      wake := !inLoop || dopendfunc;
      if inLoop && wake {
        WriteEventfd();
      }
      state := Step(state, if inLoop then PushInLoop(f) else Push(f));
    }

    ghost method WriteEventfd()
      modifies `eventfd
      ensures eventfd == old(eventfd) + 1
    {
      eventfd := eventfd + 1;
    }

    /** Another thread's wake, some time after its push. */
    ghost method WakeUp()
      requires Valid() && Enabled(state, Wake)
      modifies `eventfd, `state
      ensures Valid() && state == Step(old(state), Wake)
    {
      WriteEventfd();
      state := Step(state, Wake);
    }

    ghost method PollReturn(ready: bool)
      requires Valid() && Enabled(state, PollReturns(ready))
      modifies `state
      ensures Valid() && state == Step(old(state), PollReturns(ready))
    {
      state := Step(state, PollReturns(ready));
    }

    /** Reading the eventfd sets it to zero. */
    ghost method HandleRead()
      requires Valid() && Enabled(state, HandleWake)
      modifies `eventfd, `state
      ensures Valid() && state == Step(old(state), HandleWake)
    {
      eventfd := 0;
      state := Step(state, HandleWake);
    }

    /** In the loop's own thread the functor runs at once, in any other it is queued. */
    method RunInLoop(f: F, inLoop: bool) returns (now: bool)
      requires Valid()
      modifies `pendfunclists, `eventfd, `state
      ensures Valid() && now == inLoop
      ensures state == if inLoop then old(state) else Step(old(state), Push(f))
    {
      now := inLoop;
      if !inLoop {
        var _ := QueueLoop(f, false);
      }
    }

    /** Takes the pending functors and runs them all in order, while other threads go on pushing and waking. */
    method DoPendFunc(script: seq<seq<Action<F>>>) returns (ran: seq<F>)
      requires Valid() && state.place == Handling(false) && |script| == |pendfunclists|
      requires forall i | 0 <= i < |script| :: FromOthers(script[i])
      requires AllEnabled(state, [TakeBatch] + (BatchActions(script) + [Done]))
      modifies this
      ensures Valid() && state == RunActions(old(state), [TakeBatch] + (BatchActions(script) + [Done]))
      ensures ran == old(pendfunclists) && state.place.Polling?
    {
      ghost var acts := [TakeBatch] + (BatchActions(script) + [Done]);
      assert acts[0] == TakeBatch && acts[1..] == BatchActions(script) + [Done];
      SwapPending();
      ran := RunBatch(script, [Done]);
      assert [Action<F>.Done][1..] == [];
      FinishPending();
    }

    method RunBatch(script: seq<seq<Action<F>>>, ghost end: seq<Action<F>>) returns (ran: seq<F>)
      requires Valid() && state.place.Running? && |script| == |temp|
      requires forall i | 0 <= i < |script| :: FromOthers(script[i])
      requires AllEnabled(state, BatchActions(script) + end)
      modifies this
      ensures Valid() && state.place.Running? && temp == [] && ran == old(temp)
      ensures AllEnabled(state, end) && RunActions(state, end) == RunActions(old(state), BatchActions(script) + end)
    {
      ran := [];
      var i := 0;
      assert script[0..] == script;
      while i < |script|
        invariant 0 <= i == |ran| <= |script| && |temp| == |script| - i
        invariant Valid() && state.place.Running? && ran + temp == old(temp)
        invariant AllEnabled(state, BatchActions(script[i..]) + end)
        invariant RunActions(state, BatchActions(script[i..]) + end) == RunActions(old(state), BatchActions(script) + end)
      {
        BatchCons(script, i, end);
        var f := RunFunctor(script[i], BatchActions(script[i + 1..]) + end);
        Moved(ran, f, temp);
        ran := ran + [f];
        i := i + 1;
      }
      NoneLeft(script, end);
    }

    /** Runs one functor, with what happens meanwhile. */
    method RunFunctor(meanwhile: seq<Action<F>>, ghost later: seq<Action<F>>) returns (f: F)
      requires Valid() && state.place.Running? && FromOthers(meanwhile)
      requires AllEnabled(state, [Execute] + (meanwhile + later))
      modifies this
      ensures Valid() && state.place.Running? && old(temp) == [f] + temp && |temp| == |old(temp)| - 1
      ensures AllEnabled(state, later) && RunActions(state, later) == RunActions(old(state), [Execute] + (meanwhile + later))
    {
      ghost var acts := [Execute] + (meanwhile + later);
      assert acts[0] == Execute && acts[1..] == meanwhile + later;
      f := RunOne();
      Others(meanwhile, later);
    }

    method Others(acts: seq<Action<F>>, ghost later: seq<Action<F>>)
      requires Valid() && FromOthers(acts) && AllEnabled(state, acts + later)
      modifies `pendfunclists, `eventfd, `state
      ensures Valid() && state.place == old(state).place
      ensures AllEnabled(state, later) && RunActions(state, later) == RunActions(old(state), acts + later)
    {
      var i := 0;
      assert acts[0..] == acts;
      while i < |acts|
        invariant 0 <= i <= |acts|
        invariant Valid() && state.place == old(state).place
        invariant AllEnabled(state, acts[i..] + later)
        invariant RunActions(state, acts[i..] + later) == RunActions(old(state), acts + later)
      {
        ghost var rest := acts[i..] + later;
        assert rest[0] == acts[i] && rest[1..] == acts[i + 1..] + later;
        match acts[i] {
          case Push(f) =>
            var _ := QueueLoop(f, false);
          case PushInLoop(f) =>
            var _ := QueueLoop(f, true);
          case Wake =>
            WakeUp();
        }
        i := i + 1;
      }
      assert acts[i..] + later == later;
    }

    /** dopendfunc up to its loop: raise the flag, swap the lists under the lock. */
    method SwapPending()
      requires Valid() && Enabled(state, TakeBatch)
      modifies this
      ensures Valid() && state == Step(old(state), TakeBatch)
    {
      dopendfunc := true;
      temp, pendfunclists := pendfunclists, [];
      state := Step(state, TakeBatch);
    }

    method RunOne() returns (f: F)
      requires Valid() && Enabled(state, Execute)
      modifies `temp, `state
      ensures Valid() && state == Step(old(state), Execute) && f == old(temp)[0]
    {
      f := temp[0];
      temp := temp[1..];
      state := Step(state, Execute);
    }

    method FinishPending()
      requires Valid() && Enabled(state, Done)
      modifies `dopendfunc, `state
      ensures Valid() && state == Step(old(state), Done)
    {
      dopendfunc := false;
      state := Step(state, Done);
    }
  }
}
