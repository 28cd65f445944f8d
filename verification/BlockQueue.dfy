/** muduo_se/base/blockqueue.h: the two blocking queues as monitors over any number of threads. A step is
    what one thread does while it holds the mutex, a notification, or a spurious wakeup. */
module BlockingQueues {
  import opened Bytes
  import opened Histories

  /** Threads are numbered. `asleep` are those waiting for an item, `woken` those that a notification or
      chance has woken and that have not got the mutex back yet, and `owed` counts the pushes whose
      notification is still to come, because it is sent after the mutex is released. */
  datatype Unbounded<T> = Unbounded(
    queue: seq<T>, asleep: set<nat>, woken: set<nat>, owed: nat, pushed: seq<T>, popped: seq<T>)

  datatype Action<T> =
    | Push(x: T)
    | Notify(wake: Option<nat>)
    | TryPop(t: nat)
    | Spurious(t: nat)

  /** notify_one wakes some sleeper if there is one. */
  predicate Chooses(wake: Option<nat>, asleep: set<nat>) {
    match wake
    case Some(t) => t in asleep
    case None => asleep == {}
  }

  function Sleeping(asleep: set<nat>, wake: Option<nat>): set<nat> {
    match wake case Some(t) => asleep - {t} case None => asleep
  }

  function Woken(woken: set<nat>, wake: Option<nat>): set<nat> {
    match wake case Some(t) => woken + {t} case None => woken
  }

  predicate Enabled<T>(s: Unbounded<T>, a: Action<T>) {
    match a
    case Push(_) => true
    case Notify(wake) => s.owed > 0 && Chooses(wake, s.asleep)
    case TryPop(t) => t !in s.asleep
    case Spurious(t) => t in s.asleep
  }

  function Step<T>(s: Unbounded<T>, a: Action<T>): Unbounded<T>
    requires Enabled(s, a)
  {
    match a
    case Push(x) => s.(queue := s.queue + [x], owed := s.owed + 1, pushed := s.pushed + [x])
    case Notify(wake) => s.(owed := s.owed - 1, asleep := Sleeping(s.asleep, wake), woken := Woken(s.woken, wake))
    case TryPop(t) =>
      if s.queue == [] then s.(asleep := s.asleep + {t}, woken := s.woken - {t})
      else s.(queue := s.queue[1..], woken := s.woken - {t}, popped := s.popped + [s.queue[0]])
    case Spurious(t) => s.(asleep := s.asleep - {t}, woken := s.woken + {t})
  }

  /** Items leave in the order they came, and no consumer sleeps on more items than there are threads or
      notifications on their way to take them. */
  predicate Inv<T(==)>(s: Unbounded<T>) {
    && s.asleep !! s.woken && s.pushed == s.popped + s.queue
    && (s.asleep != {} ==> |s.queue| <= |s.woken| + s.owed)
  }

  lemma StepKeeps<T>(s: Unbounded<T>, a: Action<T>)
    requires Inv(s) && Enabled(s, a)
    ensures Inv(Step(s, a))
  {
  }

  ghost predicate IsRun<T(!new)>(ss: seq<Unbounded<T>>, acts: seq<Action<T>>) {
    && |ss| == |acts| + 1 && ss[0] == Unbounded([], {}, {}, 0, [], [])
    && forall i | 0 <= i < |acts| :: Enabled(ss[i], acts[i]) && ss[i + 1] == Step(ss[i], acts[i])
  }

  /** At every moment of every run: first in first out, and a sleeping consumer is never left alone with an
      item. */
  lemma {:induction false} NoItemStranded<T(!new)>(ss: seq<Unbounded<T>>, acts: seq<Action<T>>, i: nat)
    requires IsRun(ss, acts) && i < |ss|
    ensures ss[i].pushed == ss[i].popped + ss[i].queue
    ensures ss[i].asleep != {} && ss[i].queue != [] ==> ss[i].woken != {} || ss[i].owed > 0
    ensures Inv(ss[i])
  {
    if i > 0 {
      NoItemStranded(ss, acts, i - 1);
      StepKeeps(ss[i - 1], acts[i - 1]);
    }
  }

  predicate Tries<T>(a: Action<T>, t: nat) { a.TryPop? && a.t == t }

  predicate FindsNothing<T>(s: Unbounded<T>, a: Action<T>, t: nat) { Tries(a, t) && |s.queue| == 0 }

  predicate WakesIt<T>(a: Action<T>, t: nat) {
    (a.Notify? && a.wake == Some(t)) || (a.Spurious? && a.t == t)
  }

  /** A thread sleeps exactly if it has found the queue empty and nothing has woken it since. */
  lemma AsleepExactly<T(!new)>(ss: seq<Unbounded<T>>, acts: seq<Action<T>>, i: nat, t: nat)
    requires IsRun(ss, acts) && i <= |acts|
    ensures t in ss[i].asleep <==>
      exists j :: 0 <= j < i && FindsNothing(ss[j], acts[j], t) && forall k | j < k < i :: !WakesIt(acts[k], t)
  {
    var n := |acts|;
    var x := seq(n + 1, k requires 0 <= k <= n => t in ss[k].asleep);
    var on := seq(n, k requires 0 <= k < n => FindsNothing(ss[k], acts[k], t));
    var off := seq(n, k requires 0 <= k < n => WakesIt(acts[k], t));
    HoldsExactly(x, on, off, i);
    assert forall k | 0 <= k < n :: off[k] == WakesIt(acts[k], t);
    assert forall k | 0 <= k < n :: on[k] == FindsNothing(ss[k], acts[k], t);
  }

  /** And it is on its way back to the queue exactly if something has woken it and it has not tried again. */
  lemma WokenExactly<T(!new)>(ss: seq<Unbounded<T>>, acts: seq<Action<T>>, i: nat, t: nat)
    requires IsRun(ss, acts) && i <= |acts|
    ensures t in ss[i].woken <==>
      exists j :: 0 <= j < i && WakesIt(acts[j], t) && forall k | j < k < i :: !Tries(acts[k], t)
  {
    var n := |acts|;
    var x := seq(n + 1, k requires 0 <= k <= n => t in ss[k].woken);
    var on := seq(n, k requires 0 <= k < n => WakesIt(acts[k], t));
    var off := seq(n, k requires 0 <= k < n => Tries(acts[k], t));
    HoldsExactly(x, on, off, i);
    assert forall k | 0 <= k < n :: off[k] == Tries(acts[k], t);
    assert forall k | 0 <= k < n :: on[k] == WakesIt(acts[k], t);
  }

  function Pushes<T>(acts: seq<Action<T>>): nat {
    if acts == [] then 0 else Pushes(acts[..|acts| - 1]) + if acts[|acts| - 1].Push? then 1 else 0
  }

  function Notifies<T>(acts: seq<Action<T>>): nat {
    if acts == [] then 0 else Notifies(acts[..|acts| - 1]) + if acts[|acts| - 1].Notify? then 1 else 0
  }

  /** The items pushed, in order, and how many turns of pop found one. */
  function Items<T>(acts: seq<Action<T>>): seq<T> {
    if acts == [] then []
    else match acts[|acts| - 1]
      case Push(x) => Items(acts[..|acts| - 1]) + [x]
      case _ => Items(acts[..|acts| - 1])
  }

  function Found<T>(ss: seq<Unbounded<T>>, acts: seq<Action<T>>, i: nat): nat
    requires i <= |acts| <= |ss|
  {
    if i == 0 then 0 else Found(ss, acts, i - 1) + if acts[i - 1].TryPop? && |ss[i - 1].queue| > 0 then 1 else 0
  }

  lemma {:induction false} ItemsCount<T(!new)>(ss: seq<Unbounded<T>>, acts: seq<Action<T>>, i: nat)
    requires IsRun(ss, acts) && i <= |acts|
    ensures ss[i].pushed == Items(acts[..i]) && |ss[i].popped| == Found(ss, acts, i)
  {
    if i > 0 {
      ItemsCount(ss, acts, i - 1);
      assert acts[..i][..i - 1] == acts[..i - 1];
    }
  }

  /** What has been popped is as many of the items pushed, from the first on, as turns of pop found the queue not
      empty; the rest is in the queue. */
  lemma ItemsExactly<T(!new)>(ss: seq<Unbounded<T>>, acts: seq<Action<T>>, i: nat)
    requires IsRun(ss, acts) && i <= |acts|
    ensures Items(acts[..i]) == ss[i].popped + ss[i].queue && |ss[i].popped| == Found(ss, acts, i)
  {
    ItemsCount(ss, acts, i);
    NoItemStranded(ss, acts, i);
  }

  /** Every push brings one notification. */
  lemma {:induction false} OwedExactly<T(!new)>(ss: seq<Unbounded<T>>, acts: seq<Action<T>>, i: nat)
    requires IsRun(ss, acts) && i <= |acts|
    ensures ss[i].owed == Pushes(acts[..i]) - Notifies(acts[..i])
  {
    if i > 0 {
      OwedExactly(ss, acts, i - 1);
      assert acts[..i][..i - 1] == acts[..i - 1];
    }
  }

  class BlockingQueue<T> {
    var queue: seq<T>
    ghost var state: Unbounded<T>

    ghost predicate Valid()
      reads this
    {
      queue == state.queue
    }

    constructor ()
      ensures Valid() && state == Unbounded([], {}, {}, 0, [], [])
    {
      queue, state := [], Unbounded([], {}, {}, 0, [], []);
    }

    /** The locked part of push; the notification follows it as a step of its own. */
    method Push(x: T)
      requires Valid()
      modifies this
      ensures Valid() && state == Step(old(state), Action.Push(x))
    {
      queue := queue + [x];
      state := Step(state, Action.Push(x));
    }

    ghost method NotifyOne(wake: Option<nat>)
      requires Valid() && Enabled(state, Notify(wake))
      modifies this
      ensures Valid() && state == Step(old(state), Notify(wake))
    {
      state := Step(state, Notify(wake));
    }

    /** One turn of pop's wait loop: take the front item, or find none and go to sleep. */
    method TryPop(ghost t: nat) returns (front: Option<T>)
      requires Valid() && Enabled(state, Action<T>.TryPop(t))
      modifies this
      ensures Valid() && state == Step(old(state), Action<T>.TryPop(t))
      ensures front == if old(queue) == [] then None else Some(old(queue)[0])
    {
      if |queue| == 0 {
        front := None;
      } else {
        front := Some(queue[0]);
        queue := queue[1..];
      }
      state := Step(state, Action<T>.TryPop(t));
    }
  }
}

module BoundedQueues {
  import opened Bytes
  import opened Histories
  import opened BlockingQueues

  /** Consumers sleep on `noEmpty_`, producers on `noFull_`; both notifications are sent under the mutex. */
  datatype Bounded<T> = Bounded(
    queue: seq<T>, max: nat, sleepC: set<nat>, wokenC: set<nat>, sleepP: set<nat>, wokenP: set<nat>,
    pushed: seq<T>, popped: seq<T>)

  datatype Move<T> =
    | TryPush(p: nat, x: T, wake: Option<nat>)
    | TryTake(t: nat, wake: Option<nat>)
    | SpuriousC(t: nat)
    | SpuriousP(t: nat)

  predicate Can<T(==)>(s: Bounded<T>, m: Move<T>) {
    match m
    case TryPush(t, _, wake) => t !in s.sleepP && Chooses(wake, s.sleepC)
    case TryTake(t, wake) => t !in s.sleepC && Chooses(wake, s.sleepP)
    case SpuriousC(t) => t in s.sleepC
    case SpuriousP(t) => t in s.sleepP
  }

  predicate IsFull<T>(s: Bounded<T>) { |s.queue| == s.max }

  function Next<T>(s: Bounded<T>, m: Move<T>): Bounded<T> {
    match m
    case TryPush(t, x, wake) =>
      if IsFull(s) then s.(sleepP := s.sleepP + {t}, wokenP := s.wokenP - {t})
      else s.(queue := s.queue + [x], pushed := s.pushed + [x], wokenP := s.wokenP - {t},
              sleepC := Sleeping(s.sleepC, wake), wokenC := Woken(s.wokenC, wake))
    case TryTake(t, wake) =>
      if s.queue == [] then s.(sleepC := s.sleepC + {t}, wokenC := s.wokenC - {t})
      else s.(queue := s.queue[1..], popped := s.popped + [s.queue[0]], wokenC := s.wokenC - {t},
              sleepP := Sleeping(s.sleepP, wake), wokenP := Woken(s.wokenP, wake))
    case SpuriousC(t) => s.(sleepC := s.sleepC - {t}, wokenC := s.wokenC + {t})
    case SpuriousP(t) => s.(sleepP := s.sleepP - {t}, wokenP := s.wokenP + {t})
  }

  /** No item is stranded with a sleeping consumer and no free slot with a sleeping producer. */
  predicate Ok<T(==)>(s: Bounded<T>) {
    && s.sleepC !! s.wokenC && s.sleepP !! s.wokenP
    && s.pushed == s.popped + s.queue && |s.queue| <= s.max
    && (s.sleepC != {} ==> |s.queue| <= |s.wokenC|)
    && (s.sleepP != {} ==> s.max - |s.queue| <= |s.wokenP|)
  }

  /** A notification moves one sleeper over, if there is one. */
  lemma Wakes(asleep: set<nat>, woken: set<nat>, wake: Option<nat>)
    requires asleep !! woken && Chooses(wake, asleep)
    ensures Sleeping(asleep, wake) !! Woken(woken, wake)
    ensures |Woken(woken, wake)| == |woken| + if asleep == {} then 0 else 1
    ensures asleep == {} ==> Sleeping(asleep, wake) == {}
  {
  }

  lemma PushKeeps<T>(s: Bounded<T>, t: nat, x: T, wake: Option<nat>)
    requires Ok(s) && Can(s, TryPush(t, x, wake))
    ensures Ok(Next(s, TryPush(t, x, wake)))
  {
  }

  lemma TakeKeeps<T>(s: Bounded<T>, t: nat, wake: Option<nat>)
    requires Ok(s) && Can(s, TryTake(t, wake))
    ensures Ok(Next(s, TryTake(t, wake)))
  {
  }

  lemma NextKeeps<T>(s: Bounded<T>, m: Move<T>)
    requires Ok(s) && Can(s, m)
    ensures Ok(Next(s, m)) && Next(s, m).max == s.max
  {
    match m
    case TryPush(t, x, wake) => PushKeeps(s, t, x, wake);
    case TryTake(t, wake) => TakeKeeps(s, t, wake);
    case SpuriousC(t) => Wakes(s.sleepC, s.wokenC, Some(t));
    case SpuriousP(t) => Wakes(s.sleepP, s.wokenP, Some(t));
  }

  function Fresh<T>(max: nat): Bounded<T> {
    Bounded([], max, {}, {}, {}, {}, [], [])
  }

  lemma FreshOk<T>(max: nat)
    ensures Ok(Fresh<T>(max))
  {
  }

  ghost predicate Runs<T(!new)>(ss: seq<Bounded<T>>, ms: seq<Move<T>>, max: nat) {
    && |ss| == |ms| + 1 && ss[0] == Fresh(max)
    && forall i | 0 <= i < |ms| :: Can(ss[i], ms[i]) && ss[i + 1] == Next(ss[i], ms[i])
  }

  lemma {:induction false} NothingStranded<T(!new)>(ss: seq<Bounded<T>>, ms: seq<Move<T>>, max: nat, i: nat)
    requires Runs(ss, ms, max) && i < |ss|
    ensures Ok(ss[i]) && ss[i].max == max
  {
    if i == 0 {
      FreshOk<T>(max);
    } else {
      NothingStranded(ss, ms, max, i - 1);
      var s, m := ss[i - 1], ms[i - 1];
      assert Can(s, m) && ss[i] == Next(s, m) by { assert i - 1 < |ms|; }
      NextKeeps(s, m);
    }
  }

  /** Sleepers on both sides and nobody on the way: only a spurious wakeup could go on. */
  predicate Stuck<T>(s: Bounded<T>) {
    s.sleepC != {} && s.sleepP != {} && s.wokenC == {} && s.wokenP == {}
  }

  /** A queue can come to a deadlock if and only if it was made with room for nothing. */
  lemma DeadlockExactly<T(!new)>(max: nat, item: T)
    ensures (exists ss: seq<Bounded<T>>, ms, i :: Runs(ss, ms, max) && 0 <= i < |ss| && Stuck(ss[i])) <==> max == 0
  {
    if ss: seq<Bounded<T>>, ms, i :| Runs(ss, ms, max) && 0 <= i < |ss| && Stuck(ss[i]) {
      NothingStranded(ss, ms, max, i);
    }
    if max == 0 {
      var s0 := Fresh<T>(0);
      var m0, m1: Move<T> := TryPush(1, item, None), TryTake(2, Some(1));
      var s1 := Next(s0, m0);
      var s2 := Next(s1, m1);
      var ss, ms := [s0, s1, s2], [m0, m1];
      assert 1 in s2.sleepP && 2 in s2.sleepC;
      assert Runs(ss, ms, max) && Stuck(ss[2]);
    }
  }

  /** The items stored, in order, and how many turns of pop found one. */
  function Stored<T>(ss: seq<Bounded<T>>, ms: seq<Move<T>>, i: nat): seq<T>
    requires i <= |ms| <= |ss|
  {
    if i == 0 then []
    else match ms[i - 1]
      case TryPush(_, x, _) => if |ss[i - 1].queue| == ss[i - 1].max then Stored(ss, ms, i - 1) else Stored(ss, ms, i - 1) + [x]
      case _ => Stored(ss, ms, i - 1)
  }

  function Taken<T>(ss: seq<Bounded<T>>, ms: seq<Move<T>>, i: nat): nat
    requires i <= |ms| <= |ss|
  {
    if i == 0 then 0 else Taken(ss, ms, i - 1) + if ms[i - 1].TryTake? && |ss[i - 1].queue| > 0 then 1 else 0
  }

  lemma {:induction false} StoredCount<T(!new)>(ss: seq<Bounded<T>>, ms: seq<Move<T>>, max: nat, i: nat)
    requires Runs(ss, ms, max) && i <= |ms|
    ensures ss[i].pushed == Stored(ss, ms, i) && |ss[i].popped| == Taken(ss, ms, i)
  {
    if i > 0 {
      StoredCount(ss, ms, max, i - 1);
    }
  }

  /** What has been popped is as many of the items stored, from the first on, as turns of pop found the queue not
      empty; the rest is in the queue. A turn of push stores its item exactly if the queue is not full. */
  lemma StoredExactly<T(!new)>(ss: seq<Bounded<T>>, ms: seq<Move<T>>, max: nat, i: nat)
    requires Runs(ss, ms, max) && i <= |ms|
    ensures Stored(ss, ms, i) == ss[i].popped + ss[i].queue && |ss[i].popped| == Taken(ss, ms, i)
  {
    StoredCount(ss, ms, max, i);
    NothingStranded(ss, ms, max, i);
  }

  predicate Takes<T>(s: Bounded<T>, m: Move<T>, t: nat) { m.TryTake? && m.t == t }

  predicate Gives<T>(s: Bounded<T>, m: Move<T>, t: nat) { m.TryPush? && m.p == t }

  predicate FindsNone<T>(s: Bounded<T>, m: Move<T>, t: nat) { Takes(s, m, t) && |s.queue| == 0 }

  predicate FindsFull<T>(s: Bounded<T>, m: Move<T>, t: nat) { Gives(s, m, t) && |s.queue| == s.max }

  /** A push that succeeds notifies a consumer, a pop that succeeds a producer. */
  predicate WakesConsumer<T>(s: Bounded<T>, m: Move<T>, t: nat) {
    (m.TryPush? && |s.queue| != s.max && m.wake == Some(t)) || (m.SpuriousC? && m.t == t)
  }

  predicate WakesProducer<T>(s: Bounded<T>, m: Move<T>, t: nat) {
    (m.TryTake? && |s.queue| != 0 && m.wake == Some(t)) || (m.SpuriousP? && m.t == t)
  }

  /** A consumer sleeps exactly if it has found the queue empty and nothing has woken it since. */
  lemma ConsumerAsleepExactly<T(!new)>(ss: seq<Bounded<T>>, ms: seq<Move<T>>, max: nat, i: nat, t: nat)
    requires Runs(ss, ms, max) && i <= |ms|
    ensures t in ss[i].sleepC <==>
      exists j :: 0 <= j < i && FindsNone(ss[j], ms[j], t) && forall k | j < k < i :: !WakesConsumer(ss[k], ms[k], t)
  {
    var n := |ms|;
    var x := seq(n + 1, k requires 0 <= k <= n => t in ss[k].sleepC);
    var on := seq(n, k requires 0 <= k < n => FindsNone(ss[k], ms[k], t));
    var off := seq(n, k requires 0 <= k < n => WakesConsumer(ss[k], ms[k], t));
    HoldsExactly(x, on, off, i);
    assert forall k | 0 <= k < n :: off[k] == WakesConsumer(ss[k], ms[k], t);
    assert forall k | 0 <= k < n :: on[k] == FindsNone(ss[k], ms[k], t);
  }

  /** It is on its way back exactly if something has woken it and it has not tried again. */
  lemma ConsumerWokenExactly<T(!new)>(ss: seq<Bounded<T>>, ms: seq<Move<T>>, max: nat, i: nat, t: nat)
    requires Runs(ss, ms, max) && i <= |ms|
    ensures t in ss[i].wokenC <==>
      exists j :: 0 <= j < i && WakesConsumer(ss[j], ms[j], t) && forall k | j < k < i :: !Takes(ss[k], ms[k], t)
  {
    var n := |ms|;
    var x := seq(n + 1, k requires 0 <= k <= n => t in ss[k].wokenC);
    var on := seq(n, k requires 0 <= k < n => WakesConsumer(ss[k], ms[k], t));
    var off := seq(n, k requires 0 <= k < n => Takes(ss[k], ms[k], t));
    HoldsExactly(x, on, off, i);
    assert forall k | 0 <= k < n :: off[k] == Takes(ss[k], ms[k], t);
    assert forall k | 0 <= k < n :: on[k] == WakesConsumer(ss[k], ms[k], t);
  }

  /** A producer sleeps exactly if it has found the queue full and nothing has woken it since. */
  lemma ProducerAsleepExactly<T(!new)>(ss: seq<Bounded<T>>, ms: seq<Move<T>>, max: nat, i: nat, t: nat)
    requires Runs(ss, ms, max) && i <= |ms|
    ensures t in ss[i].sleepP <==>
      exists j :: 0 <= j < i && FindsFull(ss[j], ms[j], t) && forall k | j < k < i :: !WakesProducer(ss[k], ms[k], t)
  {
    var n := |ms|;
    var x := seq(n + 1, k requires 0 <= k <= n => t in ss[k].sleepP);
    var on := seq(n, k requires 0 <= k < n => FindsFull(ss[k], ms[k], t));
    var off := seq(n, k requires 0 <= k < n => WakesProducer(ss[k], ms[k], t));
    HoldsExactly(x, on, off, i);
    assert forall k | 0 <= k < n :: off[k] == WakesProducer(ss[k], ms[k], t);
    assert forall k | 0 <= k < n :: on[k] == FindsFull(ss[k], ms[k], t);
  }

  /** It is on its way back exactly if something has woken it and it has not tried again. */
  lemma ProducerWokenExactly<T(!new)>(ss: seq<Bounded<T>>, ms: seq<Move<T>>, max: nat, i: nat, t: nat)
    requires Runs(ss, ms, max) && i <= |ms|
    ensures t in ss[i].wokenP <==>
      exists j :: 0 <= j < i && WakesProducer(ss[j], ms[j], t) && forall k | j < k < i :: !Gives(ss[k], ms[k], t)
  {
    var n := |ms|;
    var x := seq(n + 1, k requires 0 <= k <= n => t in ss[k].wokenP);
    var on := seq(n, k requires 0 <= k < n => WakesProducer(ss[k], ms[k], t));
    var off := seq(n, k requires 0 <= k < n => Gives(ss[k], ms[k], t));
    HoldsExactly(x, on, off, i);
    assert forall k | 0 <= k < n :: off[k] == Gives(ss[k], ms[k], t);
    assert forall k | 0 <= k < n :: on[k] == WakesProducer(ss[k], ms[k], t);
  }

  class BoundedBlockingQueue<T> {
    var queue: seq<T>
    const maxSize: nat
    ghost var state: Bounded<T>

    ghost predicate Valid()
      reads this
    {
      queue == state.queue && maxSize == state.max
    }

    constructor (maxsize: nat)
      ensures Valid() && state == Fresh(maxsize)
    {
      queue, maxSize, state := [], maxsize, Fresh(maxsize);
    }

    predicate Full()
      reads this
    {
      |queue| == maxSize
    }

    /** One turn of push's wait loop: store the item and notify a consumer, or go to sleep. */
    method TryPush(ghost t: nat, x: T, ghost wake: Option<nat>) returns (done: bool)
      requires Valid() && Can(state, Move.TryPush(t, x, wake))
      modifies this
      ensures Valid() && state == Next(old(state), Move.TryPush(t, x, wake)) && done == !old(Full())
    {
      done := !Full();
      if done {
        queue := queue + [x];
      }
      state := Next(state, Move.TryPush(t, x, wake));
    }

    /** One turn of pop's wait loop: take the front item and notify a producer, or go to sleep. */
    method TryPop(ghost t: nat, ghost wake: Option<nat>) returns (front: Option<T>)
      requires Valid() && Can(state, Move<T>.TryTake(t, wake))
      modifies this
      ensures Valid() && state == Next(old(state), Move<T>.TryTake(t, wake))
      ensures front == if old(queue) == [] then None else Some(old(queue)[0])
    {
      if |queue| == 0 {
        front := None;
      } else {
        front := Some(queue[0]);
        queue := queue[1..];
      }
      state := Next(state, Move<T>.TryTake(t, wake));
    }
  }
}
