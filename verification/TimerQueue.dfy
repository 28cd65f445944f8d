/** muduo_se/net/TimerQueue.{h,cc}: the queue itself, whose methods take the steps of `Timers`. */
module TimerQueues {
  import opened Bytes
  import opened Timers
  import opened TimerRuns
  import opened TimerHandles

  class TimeNode {
    const index: int
    const addr: int
    const interval: int
    var expiration: int

    constructor (index: int, addr: int, when: int, interval: int)
      ensures View() == Timer(index, addr, when, interval)
    {
      this.index, this.addr, this.expiration, this.interval := index, addr, when, interval;
    }

    ghost function View(): Timer
      reads this
    {
      Timer(index, addr, expiration, interval)
    }

    method Restart(now: int)
      modifies this
      ensures View() == if Repeats(old(View())) then Restarted(old(View()), now) else old(View()).(when := EPOCH)
    {
      if interval > 0 {
        expiration := now + 1000 * interval;
      } else {
        expiration := EPOCH;
      }
    }
  }

  /** An element of `list_` or `deltimelist`; a null node has been released. */
  datatype Entry = Entry(when: int, node: TimeNode?)

  lemma {:induction false} InsertAt(list: seq<Timer>, t: Timer, p: nat)
    requires p <= |list| && (forall i | 0 <= i < p :: !Before(t, list[i])) && (p == |list| || Before(t, list[p]))
    ensures Insert(list, t) == list[..p] + [t] + list[p..]
    decreases |list|
  {
    if p > 0 {
      InsertAt(list[1..], t, p - 1);
      assert list[1..][..p - 1] == list[1..p] && list[..p] == [list[0]] + list[1..p];
    }
  }

  lemma {:induction false} RemoveAt(list: seq<Timer>, h: Handle, p: nat)
    requires p < |list| && Key(list[p]) == h && forall i | 0 <= i < p :: Key(list[i]) != h
    ensures Remove(list, h) == list[..p] + list[p + 1..]
    decreases |list|
  {
    if p > 0 {
      RemoveAt(list[1..], h, p - 1);
      assert list[1..][..p - 1] == list[1..p] && list[..p] == [list[0]] + list[1..p];
    }
  }

  lemma {:induction false} DueAt(list: seq<Timer>, c: int, k: nat)
    requires k <= |list| && (forall i | 0 <= i < k :: list[i].when < c) && (k == |list| || list[k].when >= c)
    ensures Due(list, c) == k
    decreases |list|
  {
  }

  /** The callbacks of a batch, each followed by the adds and cancels it performs. */
  function Callbacks(script: seq<seq<Event>>): seq<Event> {
    if script == [] then [] else [RunNext] + script[0] + Callbacks(script[1..])
  }

  /** What can happen while a callback runs. */
  predicate InCallback(e: Event) { e.Add? || e.Cancel? || e.Fire? }

  predicate AllInCallback(es: seq<Event>) {
    forall e | e in es :: InCallback(e)
  }

  /** All that happens in one expiration. */
  function BatchEvents(now: int, c: int, script: seq<seq<Event>>, late: seq<Event>, at: int): seq<Event> {
    [BeginBatch(now, c)] + (Callbacks(script) + (late + [EndBatch(at)]))
  }

  lemma CallbacksCons(script: seq<seq<Event>>, i: nat, end: seq<Event>)
    requires i < |script|
    ensures Callbacks(script[i..]) + end == [RunNext] + (script[i] + (Callbacks(script[i + 1..]) + end))
  {
  }

  predicate AllOwned(b: seq<Slot>, from: nat) {
    forall i | from <= i < |b| :: b[i].Owned?
  }

  predicate KeysDiffer(list: seq<Timer>) {
    forall i, j | 0 <= i < j < |list| :: Key(list[i]) != Key(list[j])
  }

  /** No batch entry shares an address or a key with another owner. */
  ghost predicate Separate(w: World) {
    && (forall i, j | 0 <= i < |w.list| && 0 <= j < |w.batch| && w.batch[j].Owned? :: w.list[i].addr != w.batch[j].t.addr)
    && (forall i, j | 0 <= i < j < |w.batch| && w.batch[i].Owned? && w.batch[j].Owned? ::
          w.batch[i].t.addr != w.batch[j].t.addr)
    && (forall j | 0 <= j < |w.batch| && w.batch[j].Owned? :: Key(w.batch[j].t) !in w.indexes)
  }

  /** What the container operations of each step need of the invariant. */
  ghost predicate StepOk(w: World, e: Event) {
    match e
    case Add(t, _) => Key(t) !in w.indexes
    case Cancel(h) => (h in w.indexes ==> exists i :: 0 <= i < |w.list| && Key(w.list[i]) == h) && KeysDiffer(w.list)
    case BeginBatch(_, _) => KeysDiffer(w.list)
    case EndBatch(_) => AllOwned(w.batch, 0) && Separate(w)
    case _ => true
  }

  ghost predicate AllEnabled(w: World, es: seq<Event>)
    decreases |es|
  {
    es == [] || (Enabled(w, es[0]) && AllEnabled(Step(w, es[0]), es[1..]))
  }

  ghost predicate AllOk(w: World, es: seq<Event>)
    decreases |es|
  {
    es == [] || (Enabled(w, es[0]) && StepOk(w, es[0]) && AllOk(Step(w, es[0]), es[1..]))
  }

  ghost function RunEvents(w: World, es: seq<Event>): World
    requires AllOk(w, es)
    decreases |es|
  {
    if es == [] then w else RunEvents(Step(w, es[0]), es[1..])
  }

  lemma InvMakesOk(w: World, e: Event)
    requires Inv(w) && Enabled(w, e)
    ensures StepOk(w, e)
  {
  }

  /** From a world that keeps the invariant, whatever the environment does is a run of the queue's methods,
      and the invariant holds at its end. */
  lemma {:induction false} RunIsOk(w: World, es: seq<Event>)
    requires Inv(w) && AllEnabled(w, es)
    ensures AllOk(w, es) && Inv(RunEvents(w, es))
    decreases |es|
  {
    if es != [] {
      InvMakesOk(w, es[0]);
      StepKeeps(w, es[0]);
      RunIsOk(Step(w, es[0]), es[1..]);
    }
  }

  /** The worlds that the queue's methods pass through from the start are a run, so all of TimerRuns holds. */
  lemma {:induction false} EventsAreRun(w: World, es: seq<Event>) returns (ws: seq<World>)
    requires AllOk(w, es)
    ensures |ws| == |es| + 1 && ws[0] == w && ws[|es|] == RunEvents(w, es)
    ensures forall i | 0 <= i < |es| :: Enabled(ws[i], es[i]) && ws[i + 1] == Step(ws[i], es[i])
    ensures w == Start(w.clock) && w.clock > 0 ==> IsRun(ws, es)
    decreases |es|
  {
    if es == [] {
      ws := [w];
    } else {
      var tail := EventsAreRun(Step(w, es[0]), es[1..]);
      ws := [w] + tail;
    }
  }

  lemma FlushSeparate(u: World, n: int, k: nat)
    requires Separate(u) && k < |u.batch|
    ensures Separate(FlushOne(u, n, k))
  {
    var v := FlushOne(u, n, k);
    forall i, j | 0 <= i < |v.list| && 0 <= j < |v.batch| && v.batch[j].Owned?
      ensures v.list[i].addr != v.batch[j].t.addr
    {
      assert v.list[i] in v.list;
    }
  }

  class TimerQueue {
    var list: seq<Entry>
    var indexlist: map<Handle, TimeNode>
    var deltimelist: seq<Entry>
    var waitdeltimelist: set<Handle>
    var calling: bool
    ghost var fd: Descriptor
    ghost var nodes: set<TimeNode>
    ghost var world: World

    /** The entry stands for `t`, and the index leads from its number to the same node. */
    ghost predicate Holds(e: Entry, t: Timer)
      reads this, nodes
    {
      && e.node in nodes && e.node.View() == t && e.when == t.when
      && Key(t) in indexlist && indexlist[Key(t)] == e.node
    }

    ghost predicate ListOk(v: seq<Timer>, indexes: set<Handle>)
      reads this, nodes
    {
      |list| == |v| && indexlist.Keys == indexes && forall i | 0 <= i < |v| :: Holds(list[i], v[i])
    }

    ghost predicate SlotOk(e: Entry, s: Slot)
      reads this, nodes
    {
      if s.Released? then e.node == null else e.node in nodes && e.node.View() == s.t
    }

    ghost predicate BatchEntriesOk(b: seq<Slot>)
      reads this, nodes
    {
      |deltimelist| == |b| && forall i | 0 <= i < |b| :: SlotOk(deltimelist[i], b[i])
    }

    /** The containers hold what `world` says. What a run keeps of `world` is in TimerRuns. */
    ghost predicate Valid()
      reads this, nodes
    {
      && ListOk(world.list, world.indexes) && BatchEntriesOk(world.batch)
      && waitdeltimelist == world.waiting && fd == world.fd
    }

    constructor (ghost clock: int)
      ensures Valid() && world == Start(clock) && !calling
    {
      list, indexlist, deltimelist, waitdeltimelist, calling := [], map[], [], {}, false;
      fd, nodes, world := Descriptor(false, None, clock), {}, Start(clock);
    }

    ghost method Become(v: World)
      requires ListOk(v.list, v.indexes) && BatchEntriesOk(v.batch) && waitdeltimelist == v.waiting && fd == v.fd
      modifies `world
      ensures Valid() && world == v
    {
      world := v;
    }

    /** Constructs a timer and answers its handle. The handle carries the shared counter, read after other
        threads may have made `others` more timers. What can be done with it is in TimerHandles. */
    method AddTimeNode(size: nat, others: nat, addr: int, when: int, interval: int) returns (t: TimeNode, id: Handle)
      ensures fresh(t) && t.View() == Timer(size + 1, addr, when, interval)
      ensures id == Returned(t.View(), others)
    {
      t := new TimeNode(size + 1, addr, when, interval);
      id := Handle(size + 1 + others, addr);
    }

    ghost method ResetFd(when: int, at: int)
      modifies `fd
      ensures fd == Arm(when, at)
    {
      fd := Arm(when, at);
    }

    /** Puts the node into both indexes and tells whether it is the new earliest one. */
    method Insert(t: TimeNode, ghost v: seq<Timer>, ghost indexes: set<Handle>) returns (flag: bool)
      requires ListOk(v, indexes) && t in nodes && Key(t.View()) !in indexes
      modifies `list, `indexlist
      ensures ListOk(Timers.Insert(v, t.View()), indexes + {Key(t.View())})
      ensures flag == (v == [] || t.expiration < v[0].when)
    {
      flag := list == [] || t.expiration < list[0].when;
      var p := 0;
      while p < |list| && (list[p].when < t.expiration || (list[p].when == t.expiration && list[p].node.addr <= t.addr))
        invariant 0 <= p <= |list| && forall i | 0 <= i < p :: !Before(t.View(), v[i])
      {
        assert Holds(list[p], v[p]);
        p := p + 1;
      }
      assert p < |list| ==> Holds(list[p], v[p]);
      InsertAt(v, t.View(), p);
      Emplace(t, p, v, indexes);
    }

    method Emplace(t: TimeNode, p: nat, ghost v: seq<Timer>, ghost indexes: set<Handle>)
      requires ListOk(v, indexes) && t in nodes && Key(t.View()) !in indexes && p <= |v|
      modifies `list, `indexlist
      ensures ListOk(v[..p] + [t.View()] + v[p..], indexes + {Key(t.View())})
    {
      ghost var r := v[..p] + [t.View()] + v[p..];
      list := list[..p] + [Entry(t.expiration, t)] + list[p..];
      indexlist := indexlist[Handle(t.index, t.addr) := t];
      forall i | 0 <= i < |r| ensures Holds(list[i], r[i]) {
        if i < p {
          assert old(Holds(list[i], v[i]));
        } else if i > p {
          assert r[i] == v[i - 1] && list[i] == old(list[i - 1]) && old(Holds(list[i - 1], v[i - 1]));
        }
      }
    }

    ghost method Adopt(t: TimeNode)
      requires Valid()
      modifies `nodes
      ensures Valid() && nodes == old(nodes) + {t}
    {
      nodes := nodes + {t};
      assert forall i | 0 <= i < |list| :: old(Holds(list[i], world.list[i])) ==> Holds(list[i], world.list[i]);
      assert forall i | 0 <= i < |deltimelist| ::
          old(SlotOk(deltimelist[i], world.batch[i])) ==> SlotOk(deltimelist[i], world.batch[i]);
    }

    method AddTimeNodeInLoop(t: TimeNode, at: int)
      requires Valid() && Enabled(world, Add(t.View(), at)) && StepOk(world, Add(t.View(), at))
      modifies this
      ensures Valid() && world == Step(old(world), Add(t.View(), at))
      ensures calling == old(calling) && nodes == old(nodes) + {t}
    {
      Adopt(t);
      var flag := Insert(t, world.list, world.indexes);
      if flag {
        ResetFd(t.expiration, at);
      }
      Become(Step(world, Add(t.View(), at)));
    }

    /** Deletes a pending timer at once; one that is being called is only remembered. */
    method DelTimeNodeInLoop(h: Handle)
      requires Valid() && calling == world.phase.Calling? && StepOk(world, Cancel(h))
      modifies this
      ensures Valid() && world == Step(old(world), Cancel(h))
      ensures calling == old(calling) && nodes == old(nodes)
    {
      if h in indexlist {
        Erase(h, world.list, world.indexes);
      } else if calling {
        waitdeltimelist := waitdeltimelist + {h};
      }
      Become(Step(world, Cancel(h)));
    }

    method Erase(h: Handle, ghost v: seq<Timer>, ghost indexes: set<Handle>)
      requires ListOk(v, indexes) && h in indexes && (exists i :: 0 <= i < |v| && Key(v[i]) == h)
      requires KeysDiffer(v)
      modifies `list, `indexlist
      ensures ListOk(Remove(v, h), indexes - {h})
    {
      var p := Find(h, v, indexes);
      RemoveAt(v, h, p);
      EraseAt(h, p, v, indexes);
    }

    /** Finds the entry by the expiration and the address of the indexed node. */
    method Find(h: Handle, ghost v: seq<Timer>, ghost indexes: set<Handle>) returns (p: nat)
      requires ListOk(v, indexes) && h in indexes && (exists i :: 0 <= i < |v| && Key(v[i]) == h)
      ensures p < |v| && Key(v[p]) == h && forall i | 0 <= i < p :: Key(v[i]) != h
    {
      ghost var q :| 0 <= q < |v| && Key(v[q]) == h;
      assert Holds(list[q], v[q]);
      var temp := Entry(indexlist[h].expiration, indexlist[h]);
      p := 0;
      while list[p] != temp
        invariant p <= q && forall i | 0 <= i < p :: Key(v[i]) != h
        decreases q - p
      {
        assert Holds(list[p], v[p]);
        p := p + 1;
      }
      assert Holds(list[p], v[p]);
    }

    method EraseAt(h: Handle, p: nat, ghost v: seq<Timer>, ghost indexes: set<Handle>)
      requires ListOk(v, indexes) && p < |v| && Key(v[p]) == h
      requires forall i | 0 <= i < |v| && i != p :: Key(v[i]) != h
      modifies `list, `indexlist
      ensures ListOk(v[..p] + v[p + 1..], indexes - {h})
    {
      list := list[..p] + list[p + 1..];
      indexlist := indexlist - {h};
      ghost var r := v[..p] + v[p + 1..];
      forall i | 0 <= i < |r| ensures Holds(list[i], r[i]) {
        if i < p {
          assert old(Holds(list[i], v[i]));
        } else {
          assert r[i] == v[i + 1] && list[i] == old(list[i + 1]) && old(Holds(list[i + 1], v[i + 1]));
        }
      }
    }

    /** Moves the timers due at `c` from both indexes into the batch, in order. */
    method GetExpired(now: int, c: int)
      requires Valid() && Enabled(world, BeginBatch(now, c))
      requires KeysDiffer(world.list)
      modifies this
      ensures Valid() && world == Step(old(world), BeginBatch(now, c))
      ensures calling == old(calling) && nodes == old(nodes)
    {
      var k := LowerBound(c, world.list, world.indexes);
      Split(k, world.list, world.indexes);
      Become(Step(world, BeginBatch(now, c)));
    }

    method LowerBound(c: int, ghost v: seq<Timer>, ghost indexes: set<Handle>) returns (k: nat)
      requires ListOk(v, indexes)
      ensures k == Due(v, c)
    {
      k := 0;
      while k < |list| && list[k].when < c
        invariant k <= |list| && forall i | 0 <= i < k :: v[i].when < c
      {
        assert Holds(list[k], v[k]);
        k := k + 1;
      }
      assert k < |list| ==> Holds(list[k], v[k]);
      DueAt(v, c, k);
    }

    method Split(k: nat, ghost v: seq<Timer>, ghost indexes: set<Handle>)
      requires ListOk(v, indexes) && k <= |v| && KeysDiffer(v)
      modifies `list, `deltimelist, `indexlist
      ensures ListOk(v[k..], indexes - Keys(v[..k])) && BatchEntriesOk(Own(v[..k]))
    {
      assert forall i | 0 <= i < k :: Holds(list[i], v[i]);
      deltimelist := list[..k];
      list := list[k..];
      EraseIndexes(v[..k]);
      forall j | 0 <= j < |v| - k ensures Holds(list[j], v[k..][j]) {
        assert old(Holds(list[k + j], v[k + j]));
        assert forall m | 0 <= m < k :: v[..k][m] == v[m];
      }
    }

    method EraseIndexes(ghost due: seq<Timer>)
      requires |due| == |deltimelist|
      requires forall i | 0 <= i < |due| :: deltimelist[i].node in nodes && deltimelist[i].node.View() == due[i]
      modifies `indexlist
      ensures indexlist == old(indexlist) - Keys(due)
    {
      var i := 0;
      while i < |deltimelist|
        invariant 0 <= i <= |due|
        invariant indexlist == old(indexlist) - Keys(due[..i])
      {
        assert due[..i + 1] == due[..i] + [due[i]];
        assert Keys(due[..i + 1]) == Keys(due[..i]) + {Key(due[i])};
        indexlist := indexlist - {Handle(deltimelist[i].node.index, deltimelist[i].node.addr)};
        i := i + 1;
      }
      assert due[..i] == due;
    }

    /** Puts the repeating timers of the batch back and arms the descriptor for the earliest one. */
    method Fflash(now: int, at: int)
      requires Valid() && Enabled(world, EndBatch(at)) && now == world.phase.n
      requires AllOwned(world.batch, 0) && Separate(world)
      modifies this, nodes
      ensures Valid() && world == Step(old(world), EndBatch(at))
      ensures calling == old(calling) && nodes == old(nodes)
    {
      ghost var u := FlushBatch(now);
      if list != [] {
        assert Holds(list[0], u.list[0]);
        if list[0].node.expiration != EPOCH {
          ResetFd(list[0].node.expiration, at);
        }
      }
      Become(Step(world, EndBatch(at)));
    }

    method FlushBatch(now: int) returns (ghost u: World)
      requires Valid() && AllOwned(world.batch, 0) && Separate(world)
      modifies `list, `indexlist, `deltimelist, nodes
      ensures u == Flush(world, now, 0)
      ensures ListOk(u.list, u.indexes) && BatchEntriesOk(u.batch) && waitdeltimelist == u.waiting && fd == u.fd
    {
      u := world;
      var i := 0;
      while i < |deltimelist|
        invariant 0 <= i <= |deltimelist| == |u.batch|
        invariant ListOk(u.list, u.indexes) && BatchEntriesOk(u.batch) && Separate(u) && AllOwned(u.batch, i)
        invariant waitdeltimelist == u.waiting && fd == u.fd
        invariant Flush(u, now, i) == Flush(world, now, 0)
      {
        FlushSeparate(u, now, i);
        u := FlushEntry(i, now, u);
        i := i + 1;
      }
    }

    method FlushEntry(i: nat, now: int, ghost u: World) returns (ghost v: World)
      requires i < |deltimelist| == |u.batch| && u.batch[i].Owned?
      requires ListOk(u.list, u.indexes) && BatchEntriesOk(u.batch) && Separate(u)
      requires waitdeltimelist == u.waiting
      modifies `list, `indexlist, `deltimelist, nodes
      ensures v == FlushOne(u, now, i)
      ensures ListOk(v.list, v.indexes) && BatchEntriesOk(v.batch)
    {
      v := FlushOne(u, now, i);
      var node := deltimelist[i].node;
      assert SlotOk(deltimelist[i], u.batch[i]);
      if node.interval > 0 && Handle(node.index, node.addr) !in waitdeltimelist {
        forall j | 0 <= j < |list| ensures list[j].node != node {
          assert Holds(list[j], u.list[j]);
        }
        forall j | 0 <= j < |u.batch| && j != i ensures deltimelist[j].node != node {
          assert SlotOk(deltimelist[j], u.batch[j]);
        }
        RestartNode(node, now, u);
        deltimelist := deltimelist[i := Entry(deltimelist[i].when, null)];
        var _ := Insert(node, u.list, u.indexes);
      }
    }

    method RestartNode(node: TimeNode, now: int, ghost u: World)
      requires ListOk(u.list, u.indexes) && BatchEntriesOk(u.batch)
      requires node in nodes && node.interval > 0 && forall j | 0 <= j < |list| :: list[j].node != node
      modifies node
      ensures ListOk(u.list, u.indexes) && node.expiration == now + 1000 * node.interval
    {
      assert forall j | 0 <= j < |list| :: Holds(list[j], u.list[j]);
      node.Restart(now);
      assert forall j | 0 <= j < |list| :: Holds(list[j], u.list[j]);
    }

    /** The kernel timer expires. */
    ghost method Expire(at: int)
      requires Valid() && Enabled(world, Fire(at))
      modifies `fd, `world
      ensures Valid() && world == Step(old(world), Fire(at))
    {
      fd := fd.(readable := true, armed := None);
      Become(Step(world, Fire(at)));
    }

    /** A callback's own adds and cancels, and expiries in the meantime. */
    method Act(es: seq<Event>, ghost later: seq<Event>)
      requires Valid() && calling == world.phase.Calling?
      requires AllInCallback(es) && AllOk(world, es + later)
      modifies this
      ensures Valid() && calling == old(calling) && calling == world.phase.Calling?
      ensures AllOk(world, later) && RunEvents(world, later) == RunEvents(old(world), es + later)
      ensures world.phase == old(world).phase && world.batch == old(world).batch
      ensures fresh(nodes - old(nodes))
    {
      var i := 0;
      assert es[0..] == es;
      while i < |es|
        invariant 0 <= i <= |es|
        invariant Valid() && calling == old(calling) && calling == world.phase.Calling?
        invariant AllOk(world, es[i..] + later)
        invariant RunEvents(world, es[i..] + later) == RunEvents(old(world), es + later)
        invariant world.phase == old(world).phase && world.batch == old(world).batch
        invariant fresh(nodes - old(nodes))
      {
        ghost var rest := es[i..] + later;
        assert rest[0] == es[i] && rest[1..] == es[i + 1..] + later;
        assert es[i] in es;
        ActOne(es[i]);
        i := i + 1;
      }
      assert es[i..] + later == later;
    }

    method ActOne(e: Event)
      requires Valid() && calling == world.phase.Calling?
      requires InCallback(e) && Enabled(world, e) && StepOk(world, e)
      modifies this
      ensures Valid() && calling == old(calling) && world == Step(old(world), e)
      ensures fresh(nodes - old(nodes))
    {
      match e {
        case Add(t, at) =>
          var node := new TimeNode(t.index, t.addr, t.when, t.interval);
          AddTimeNodeInLoop(node, at);
        case Cancel(h) =>
          DelTimeNodeInLoop(h);
        case Fire(at) =>
          Expire(at);
      }
    }

    /** One expiration of the descriptor: take the batch, run its callbacks in order, flush. `script` says
        what happens during the callbacks, `late` what expires after them. */
    method HandleRead(now: int, c: int, script: seq<seq<Event>>, late: seq<Event>, at: int)
      requires Valid() && !calling && world.phase.Idle? && |script| == Due(world.list, c)
      requires AllInCallback(late) && forall es | es in script :: AllInCallback(es)
      requires AllOk(world, BatchEvents(now, c, script, late, at))
      modifies this, nodes
      ensures Valid() && !calling && world.phase.Idle?
      ensures world == RunEvents(old(world), BatchEvents(now, c, script, late, at))
    {
      TakeBatch(now, c, Callbacks(script) + (late + [EndBatch(at)]));
      CallBatch(script, late, [EndBatch(at)]);
      PutBatchBack(now, at);
    }

    method CallBatch(script: seq<seq<Event>>, late: seq<Event>, ghost end: seq<Event>)
      requires Valid() && !calling && world.phase.Calling? && world.phase.pos == 0 && |script| == |world.batch|
      requires AllInCallback(late) && forall es | es in script :: AllInCallback(es)
      requires AllOk(world, Callbacks(script) + (late + end))
      modifies this
      ensures Valid() && !calling && world.phase.Calling? && world.phase.n == old(world).phase.n
      ensures AllOk(world, end) && RunEvents(world, end) == RunEvents(old(world), Callbacks(script) + (late + end))
      ensures fresh(nodes - old(nodes))
    {
      calling := true;
      CallAll(script, late + end);
      Act(late, end);
      calling := false;
    }

    method TakeBatch(now: int, c: int, ghost later: seq<Event>)
      requires Valid() && world.phase.Idle? && AllOk(world, [BeginBatch(now, c)] + later)
      modifies this
      ensures Valid() && calling == old(calling) && nodes == old(nodes)
      ensures world.phase == Calling(0, now, c) && |world.batch| == Due(old(world).list, c)
      ensures AllOk(world, later) && RunEvents(world, later) == RunEvents(old(world), [BeginBatch(now, c)] + later)
    {
      ghost var all := [BeginBatch(now, c)] + later;
      assert all[0] == BeginBatch(now, c) && all[1..] == later;
      GetExpired(now, c);
    }

    method PutBatchBack(now: int, at: int)
      requires Valid() && AllOk(world, [EndBatch(at)]) && world.phase.Calling? && world.phase.n == now
      modifies this, nodes
      ensures Valid() && calling == old(calling) && world.phase.Idle?
      ensures world == RunEvents(old(world), [EndBatch(at)])
    {
      assert [EndBatch(at)][1..] == [];
      Fflash(now, at);
    }

    /** Runs the whole batch, in order. */
    method CallAll(script: seq<seq<Event>>, ghost end: seq<Event>)
      requires Valid() && calling && world.phase.Calling? && world.phase.pos == 0 && |script| == |world.batch|
      requires forall es | es in script :: AllInCallback(es)
      requires AllOk(world, Callbacks(script) + end)
      modifies this
      ensures Valid() && calling && world.phase == old(world).phase.(pos := |script|) && world.batch == old(world).batch
      ensures AllOk(world, end) && RunEvents(world, end) == RunEvents(old(world), Callbacks(script) + end)
      ensures fresh(nodes - old(nodes))
    {
      var i := 0;
      assert script[0..] == script;
      while i < |deltimelist|
        invariant 0 <= i <= |deltimelist| == |world.batch| == |script|
        invariant Valid() && calling && world.batch == old(world).batch && world.phase == old(world).phase.(pos := i)
        invariant AllOk(world, Callbacks(script[i..]) + end)
        invariant RunEvents(world, Callbacks(script[i..]) + end) == RunEvents(old(world), Callbacks(script) + end)
        invariant fresh(nodes - old(nodes))
      {
        CallbacksCons(script, i, end);
        assert script[i] in script;
        CallOne(script[i], Callbacks(script[i + 1..]) + end);
        i := i + 1;
      }
      assert Callbacks(script[i..]) + end == end;
    }

    /** Runs one callback: first its turn, then what it does. */
    method CallOne(es: seq<Event>, ghost later: seq<Event>)
      requires Valid() && calling && world.phase.Calling?
      requires AllInCallback(es) && AllOk(world, [RunNext] + (es + later))
      modifies this
      ensures Valid() && calling
      ensures world.phase == old(world).phase.(pos := old(world).phase.pos + 1) && world.batch == old(world).batch
      ensures AllOk(world, later) && RunEvents(world, later) == RunEvents(old(world), [RunNext] + (es + later))
      ensures fresh(nodes - old(nodes))
    {
      ghost var rest := [RunNext] + (es + later);
      assert rest[0] == RunNext && rest[1..] == es + later;
      Become(Step(world, RunNext));
      Act(es, later);
    }
  }
}
