/** muduo_se/net/EpollPoller.{h,cc} and the registration side of muduo_se/net/Channel.{h,cc}: the poller's
    own table against the interest set of the kernel. A descriptor has one channel at a time; it may get a new one once
    the old one has been removed. */
module EpollPollers {
  import opened Bytes

  const NO_EVENT: bv8 := 0
  const READ_EVENT: bv8 := 3
  const WRITE_EVENT: bv8 := 4

  /** knew, kin and kdel. */
  datatype Index = New | In | Deleted

  datatype Chan = Chan(events: bv8, index: Index)

  /** The channels by descriptor, the descriptors in `channels_`, and the kernel's interest set. */
  datatype Registry = Registry(chans: map<int, Chan>, table: set<int>, kernel: map<int, bv8>)

  datatype Op =
    | Create(fd: int)
    | EnRead(fd: int)
    | EnWrite(fd: int)
    | DisWrite(fd: int)
    | DisAll(fd: int)
    | Remove(fd: int)

  datatype Ctl = Add(fd: int, events: bv8) | Mod(fd: int, events: bv8) | Del(fd: int)

  /** epoll_ctl fails on adding twice and on changing or deleting what is not there. */
  predicate Legal(kernel: map<int, bv8>, c: Ctl) {
    if c.Add? then c.fd !in kernel else c.fd in kernel
  }

  function Kernel(kernel: map<int, bv8>, c: Ctl): map<int, bv8> {
    match c
    case Add(fd, events) => if fd in kernel then kernel else kernel[fd := events]
    case Mod(fd, events) => if fd in kernel then kernel[fd := events] else kernel
    case Del(fd) => kernel - {fd}
  }

  function WithEvents(r: Registry, fd: int, events: bv8): Registry
    requires fd in r.chans
  {
    r.(chans := r.chans[fd := r.chans[fd].(events := events)])
  }

  function WithIndex(r: Registry, fd: int, index: Index): Registry
    requires fd in r.chans
  {
    r.(chans := r.chans[fd := r.chans[fd].(index := index)])
  }

  /** The epoll_ctl call that upChannel makes. */
  function UpCall(r: Registry, fd: int): Ctl
    requires fd in r.chans
  {
    var c := r.chans[fd];
    if c.index != In then Add(fd, c.events)
    else if c.events == NO_EVENT then Del(fd)
    else Mod(fd, c.events)
  }

  function Up(r: Registry, fd: int): Registry
    requires fd in r.chans
  {
    var c := r.chans[fd];
    var index := if c.index == In && c.events == NO_EVENT then Deleted else In;
    WithIndex(r, fd, index).(table := r.table + {fd}, kernel := Kernel(r.kernel, UpCall(r, fd)))
  }

  /** The mask an operation leaves on its channel. */
  function Mask(r: Registry, o: Op): bv8
    requires o.fd in r.chans
  {
    match o
    case EnRead(fd) => r.chans[fd].events | READ_EVENT
    case EnWrite(fd) => r.chans[fd].events | WRITE_EVENT
    case DisWrite(fd) => r.chans[fd].events & !WRITE_EVENT
    case DisAll(_) => NO_EVENT
    case _ => r.chans[o.fd].events
  }

  /** Removing asserts that the channel is known and has no events. */
  predicate Enabled(r: Registry, o: Op) {
    match o
    case Create(fd) => fd in r.chans ==> r.chans[fd].index == New
    case Remove(fd) => fd in r.chans && fd in r.table && r.chans[fd].events == NO_EVENT && r.chans[fd].index != New
    case _ => o.fd in r.chans
  }

  /** The call to the kernel that an operation makes, if it makes one. */
  function Call(r: Registry, o: Op): Option<Ctl>
    requires Enabled(r, o)
  {
    match o
    case Create(_) => None
    case Remove(fd) => if r.chans[fd].index == In then Some(Del(fd)) else None
    case _ => Some(UpCall(WithEvents(r, o.fd, Mask(r, o)), o.fd))
  }

  function Step(r: Registry, o: Op): Registry
    requires Enabled(r, o)
  {
    match o
    case Create(fd) => r.(chans := r.chans[fd := Chan(NO_EVENT, New)])
    case Remove(fd) =>
      WithIndex(r, fd, New).(table := r.table - {fd},
                             kernel := if r.chans[fd].index == In then Kernel(r.kernel, Del(fd)) else r.kernel)
    case _ => Up(WithEvents(r, o.fd, Mask(r, o)), o.fd)
  }

  /** The kernel holds exactly the channels with index In, with their current masks, and the table exactly
      those that are not New. */
  ghost predicate Agree(r: Registry) {
    && (forall fd :: fd in r.kernel <==> fd in r.chans && r.chans[fd].index == In)
    && (forall fd | fd in r.kernel :: r.kernel[fd] == r.chans[fd].events)
    && (forall fd :: fd in r.table <==> fd in r.chans && r.chans[fd].index != New)
  }

  /** In agreement but for the mask that the kernel has for one channel. */
  ghost predicate AgreeBut(r: Registry, one: int) {
    && (forall fd :: fd in r.kernel <==> fd in r.chans && r.chans[fd].index == In)
    && (forall fd | fd in r.kernel && fd != one :: r.kernel[fd] == r.chans[fd].events)
    && (forall fd :: fd in r.table <==> fd in r.chans && r.chans[fd].index != New)
  }

  /** upChannel brings the one mask into agreement, by a legal call. */
  lemma UpKeeps(r: Registry, fd: int)
    requires fd in r.chans && AgreeBut(r, fd)
    ensures Agree(Up(r, fd)) && Legal(r.kernel, UpCall(r, fd))
  {
  }

  lemma StepKeeps(r: Registry, o: Op)
    requires Agree(r) && Enabled(r, o)
    ensures Agree(Step(r, o))
    ensures Call(r, o).Some? ==> Legal(r.kernel, Call(r, o).value)
  {
    if !o.Create? && !o.Remove? {
      UpKeeps(WithEvents(r, o.fd, Mask(r, o)), o.fd);
    }
  }

  function EmptyRegistry(): Registry { Registry(map[], {}, map[]) }

  ghost predicate IsRun(rs: seq<Registry>, ops: seq<Op>) {
    && |rs| == |ops| + 1 && rs[0] == EmptyRegistry()
    && forall i | 0 <= i < |ops| :: Enabled(rs[i], ops[i]) && rs[i + 1] == Step(rs[i], ops[i])
  }

  /** After every sequence of operations the table and the kernel agree with the channels, and no call on
      the way was refused. */
  lemma {:induction false} AgreeAlways(rs: seq<Registry>, ops: seq<Op>, i: nat)
    requires IsRun(rs, ops) && i < |rs|
    ensures Agree(rs[i])
    ensures i < |ops| && Call(rs[i], ops[i]).Some? ==> Legal(rs[i].kernel, Call(rs[i], ops[i]).value)
  {
    if i > 0 {
      AgreeAlways(rs, ops, i - 1);
      StepKeeps(rs[i - 1], ops[i - 1]);
    }
    if i < |ops| {
      StepKeeps(rs[i], ops[i]);
    }
  }

  /** Closing a connection: disabling all events and removing the channel always goes through, from any
      index. After an earlier disabling, the second one adds the descriptor again with an empty mask, and
      the removal deletes it. */
  lemma DelChannelClears(r: Registry, fd: int)
    requires Agree(r) && fd in r.chans
    ensures Enabled(Step(r, DisAll(fd)), Remove(fd))
    ensures r.chans[fd].index == Deleted ==> Step(r, DisAll(fd)).kernel == r.kernel[fd := NO_EVENT]
    ensures var v := Step(Step(r, DisAll(fd)), Remove(fd));
      && Agree(v) && v.kernel == r.kernel - {fd} && v.table == r.table - {fd} && v.chans[fd].index == New
  {
  }

  /** Which descriptors the kernel and the table have: updating a channel takes it out of the kernel exactly when
      it is in and its mask has become empty, and puts it in otherwise; removing takes it out of both. */
  lemma RegisteredExactly(r: Registry, o: Op)
    requires Agree(r) && Enabled(r, o)
    ensures var v := Step(r, o);
      match o
      case Create(_) => v.kernel == r.kernel && v.table == r.table
      case Remove(fd) => v.kernel == r.kernel - {fd} && v.table == r.table - {fd}
      case _ =>
        && v.table == r.table + {o.fd}
        && v.kernel == if o.fd in r.kernel && v.chans[o.fd].events == 0 then r.kernel - {o.fd}
                       else r.kernel[o.fd := v.chans[o.fd].events]
  {
  }

  /** Each operation sets or clears exactly its own bits, 1 and 2 for reading and 4 for writing, of its own
      channel. */
  lemma BitsExactly(r: Registry, o: Op)
    requires Enabled(r, o)
    ensures forall fd | fd in r.chans && fd != o.fd ::
      fd in Step(r, o).chans && Step(r, o).chans[fd].events == r.chans[fd].events
    ensures o.fd in Step(r, o).chans
    ensures var u, v := (if o.fd in r.chans then r.chans[o.fd].events else 0), Step(r, o).chans[o.fd].events;
      match o
      case Create(_) => v == 0
      case EnRead(_) => v & 3 == 3 && v & 252 == u & 252
      case EnWrite(_) => v & 4 == 4 && v & 251 == u & 251
      case DisWrite(_) => v & 4 == 0 && v & 251 == u & 251
      case DisAll(_) => v == 0
      case Remove(_) => v == u
  {
  }

  /** The last of the operations that turn writing on or off, or make the channel, turned it on. */
  ghost predicate WriteLastOn(ops: seq<Op>, i: nat, fd: int)
    requires i <= |ops|
  {
    exists j :: 0 <= j < i && ops[j] == EnWrite(fd) && forall k | j < k < i :: ops[k] !in {DisWrite(fd), DisAll(fd), Create(fd)}
  }

  ghost predicate ReadLastOn(ops: seq<Op>, i: nat, fd: int)
    requires i <= |ops|
  {
    exists j :: 0 <= j < i && ops[j] == EnRead(fd) && forall k | j < k < i :: ops[k] !in {DisAll(fd), Create(fd)}
  }

  lemma WriteNext(ops: seq<Op>, i: nat, fd: int)
    requires i < |ops|
    ensures WriteLastOn(ops, i + 1, fd) <==>
      ops[i] == EnWrite(fd) || (WriteLastOn(ops, i, fd) && ops[i] !in {DisWrite(fd), DisAll(fd), Create(fd)})
  {
    if WriteLastOn(ops, i + 1, fd) && ops[i] != EnWrite(fd) {
      var j :| 0 <= j < i + 1 && ops[j] == EnWrite(fd)
        && forall k | j < k < i + 1 :: ops[k] !in {DisWrite(fd), DisAll(fd), Create(fd)};
      assert j < i;
    }
    if WriteLastOn(ops, i, fd) && ops[i] !in {DisWrite(fd), DisAll(fd), Create(fd)} {
      var j :| 0 <= j < i && ops[j] == EnWrite(fd)
        && forall k | j < k < i :: ops[k] !in {DisWrite(fd), DisAll(fd), Create(fd)};
      assert forall k | j < k < i + 1 :: ops[k] !in {DisWrite(fd), DisAll(fd), Create(fd)};
    }
  }

  lemma ReadNext(ops: seq<Op>, i: nat, fd: int)
    requires i < |ops|
    ensures ReadLastOn(ops, i + 1, fd) <==>
      ops[i] == EnRead(fd) || (ReadLastOn(ops, i, fd) && ops[i] !in {DisAll(fd), Create(fd)})
  {
    if ReadLastOn(ops, i + 1, fd) && ops[i] != EnRead(fd) {
      var j :| 0 <= j < i + 1 && ops[j] == EnRead(fd) && forall k | j < k < i + 1 :: ops[k] !in {DisAll(fd), Create(fd)};
      assert j < i;
    }
    if ReadLastOn(ops, i, fd) && ops[i] !in {DisAll(fd), Create(fd)} {
      var j :| 0 <= j < i && ops[j] == EnRead(fd) && forall k | j < k < i :: ops[k] !in {DisAll(fd), Create(fd)};
      assert forall k | j < k < i + 1 :: ops[k] !in {DisAll(fd), Create(fd)};
    }
  }

  lemma KeepsOtherBits(u: bv8, v: bv8)
    ensures v & 252 == u & 252 ==> v & 4 == u & 4
    ensures v & 251 == u & 251 ==> v & 1 == u & 1 && v & 2 == u & 2
    ensures v & 3 == 3 ==> v & 1 == 1 && v & 2 == 2
  {
    if v & 252 == u & 252 {
      assert (v & 252) & 4 == (u & 252) & 4;
    }
    if v & 251 == u & 251 {
      assert (v & 251) & 1 == (u & 251) & 1 && (v & 251) & 2 == (u & 251) & 2;
    }
  }

  lemma MaskStep(rs: seq<Registry>, ops: seq<Op>, i: nat, fd: int)
    requires IsRun(rs, ops) && i < |ops| && fd in rs[i + 1].chans
    ensures var v := rs[i + 1].chans[fd].events; var u := if fd in rs[i].chans then rs[i].chans[fd].events else 0;
      && (v & 4 != 0 <==> ops[i] == EnWrite(fd) || (u & 4 != 0 && ops[i] !in {DisWrite(fd), DisAll(fd), Create(fd)}))
      && (v & 1 != 0 <==> ops[i] == EnRead(fd) || (u & 1 != 0 && ops[i] !in {DisAll(fd), Create(fd)}))
      && (v & 2 != 0 <==> ops[i] == EnRead(fd) || (u & 2 != 0 && ops[i] !in {DisAll(fd), Create(fd)}))
  {
    BitsExactly(rs[i], ops[i]);
    KeepsOtherBits(if fd in rs[i].chans then rs[i].chans[fd].events else 0, rs[i + 1].chans[fd].events);
  }

  lemma {:induction false} NotYetMade(rs: seq<Registry>, ops: seq<Op>, i: nat, fd: int)
    requires IsRun(rs, ops) && i <= |ops| && fd !in rs[i].chans
    ensures !WriteLastOn(ops, i, fd) && !ReadLastOn(ops, i, fd)
  {
    if i > 0 {
      BitsExactly(rs[i - 1], ops[i - 1]);
      NotYetMade(rs, ops, i - 1, fd);
      WriteNext(ops, i - 1, fd);
      ReadNext(ops, i - 1, fd);
    }
  }

  /** The mask of a channel, after any operations: it can be written to exactly if writing was turned on last,
      and read from, by both bits, exactly if reading was. */
  lemma {:induction false} MaskExactly(rs: seq<Registry>, ops: seq<Op>, i: nat, fd: int)
    requires IsRun(rs, ops) && i <= |ops| && fd in rs[i].chans
    ensures rs[i].chans[fd].events & 4 != 0 <==> WriteLastOn(ops, i, fd)
    ensures rs[i].chans[fd].events & 1 != 0 <==> ReadLastOn(ops, i, fd)
    ensures rs[i].chans[fd].events & 2 != 0 <==> ReadLastOn(ops, i, fd)
  {
    if i > 0 {
      MaskStep(rs, ops, i - 1, fd);
      WriteNext(ops, i - 1, fd);
      ReadNext(ops, i - 1, fd);
      if fd in rs[i - 1].chans {
        MaskExactly(rs, ops, i - 1, fd);
      } else {
        NotYetMade(rs, ops, i - 1, fd);
      }
    }
  }

  /** So what the kernel polls a registered descriptor for is what was turned on last. */
  lemma KernelPollsExactly(rs: seq<Registry>, ops: seq<Op>, i: nat, fd: int)
    requires IsRun(rs, ops) && i <= |ops| && fd in rs[i].kernel
    ensures rs[i].kernel[fd] & 4 != 0 <==> WriteLastOn(ops, i, fd)
    ensures rs[i].kernel[fd] & 1 != 0 <==> ReadLastOn(ops, i, fd)
    ensures rs[i].kernel[fd] & 2 != 0 <==> ReadLastOn(ops, i, fd)
  {
    AgreeAlways(rs, ops, i);
    MaskExactly(rs, ops, i, fd);
  }

  lemma StepIsUp(r: Registry, o: Op)
    requires Enabled(r, o) && !o.Create? && !o.Remove?
    ensures Step(r, o) == Up(WithEvents(r, o.fd, Mask(r, o)), o.fd)
  {
  }

  class Channel {
    const fd: int
    var events: bv8
    var revents: bv8
    var index: Index

    constructor (fd: int)
      ensures this.fd == fd && events == NO_EVENT && revents == NO_EVENT && index == New
    {
      this.fd, events, revents, index := fd, NO_EVENT, NO_EVENT, New;
    }

    predicate IsNoEvent()
      reads this
    {
      events == NO_EVENT
    }

    method EnableReading(p: EpollPoller)
      requires p.Knows(this) && Agree(p.registry)
      modifies `events, `index, p
      ensures p.Valid() && p.registry == Step(old(p.registry), EnRead(fd)) && p.objects == old(p.objects)
    {
      StepIsUp(p.registry, EnRead(fd));
      p.SetEvents(this, events | READ_EVENT);
      p.UpChannel(this);
    }

    method EnableWriting(p: EpollPoller)
      requires p.Knows(this) && Agree(p.registry)
      modifies `events, `index, p
      ensures p.Valid() && p.registry == Step(old(p.registry), EnWrite(fd)) && p.objects == old(p.objects)
    {
      StepIsUp(p.registry, EnWrite(fd));
      p.SetEvents(this, events | WRITE_EVENT);
      p.UpChannel(this);
    }

    method DisableWriting(p: EpollPoller)
      requires p.Knows(this) && Agree(p.registry)
      modifies `events, `index, p
      ensures p.Valid() && p.registry == Step(old(p.registry), DisWrite(fd)) && p.objects == old(p.objects)
    {
      StepIsUp(p.registry, DisWrite(fd));
      p.SetEvents(this, events & !WRITE_EVENT);
      p.UpChannel(this);
    }

    method DisableAll(p: EpollPoller)
      requires p.Knows(this) && Agree(p.registry)
      modifies `events, `index, p
      ensures p.Valid() && p.registry == Step(old(p.registry), DisAll(fd)) && p.objects == old(p.objects)
    {
      StepIsUp(p.registry, DisAll(fd));
      p.SetEvents(this, NO_EVENT);
      p.UpChannel(this);
    }
  }

  /** `pointers` holds the data.ptr that the kernel keeps with each descriptor of its interest set. */
  class EpollPoller {
    var channels: map<int, Channel>
    ghost var pointers: map<int, Channel>
    ghost var objects: map<int, Channel>
    ghost var registry: Registry

    ghost predicate Mirrors(c: Channel, fd: int)
      reads this, c
    {
      fd in registry.chans && c.fd == fd && registry.chans[fd] == Chan(c.events, c.index)
    }

    ghost predicate Valid()
      reads this, objects.Values
    {
      && objects.Keys == registry.chans.Keys && (forall fd | fd in objects :: Mirrors(objects[fd], fd))
      && channels.Keys == registry.table && (forall fd | fd in channels :: fd in objects && channels[fd] == objects[fd])
      && pointers.Keys == registry.kernel.Keys && (forall fd | fd in pointers :: fd in objects && pointers[fd] == objects[fd])
    }

    ghost predicate Knows(c: Channel)
      reads this, objects.Values
    {
      Valid() && c.fd in objects && objects[c.fd] == c
    }

    constructor ()
      ensures Valid() && registry == EmptyRegistry() && objects == map[]
    {
      channels, pointers, objects, registry := map[], map[], map[], EmptyRegistry();
    }

    method NewChannel(fd: int) returns (c: Channel)
      requires Valid() && Agree(registry) && Enabled(registry, Create(fd))
      modifies `objects, `registry
      ensures Knows(c) && fresh(c) && c.fd == fd && registry == Step(old(registry), Create(fd))
    {
      c := new Channel(fd);
      objects := objects[fd := c];
      registry := Step(registry, Create(fd));
    }

    method SetEvents(c: Channel, events: bv8)
      requires Knows(c)
      modifies `registry, c`events
      ensures Knows(c) && c.events == events && registry == WithEvents(old(registry), c.fd, events)
      ensures Agree(old(registry)) ==> AgreeBut(registry, c.fd)
    {
      registry := WithEvents(registry, c.fd, events);
      c.events := events;
      assert forall fd | fd in objects && fd != c.fd :: objects[fd] != c;
    }

    method SetIndex(c: Channel, index: Index)
      requires Knows(c)
      modifies `registry, c`index
      ensures Knows(c) && c.index == index && registry == WithIndex(old(registry), c.fd, index)
    {
      registry := WithIndex(registry, c.fd, index);
      c.index := index;
      assert forall fd | fd in objects && fd != c.fd :: objects[fd] != c;
    }

    /** epoll_ctl with the channel's address as its data. */
    ghost method Update(c: Channel, call: Ctl)
      requires Knows(c) && call.fd == c.fd && Legal(registry.kernel, call)
      modifies `registry, `pointers
      ensures Knows(c) && registry == old(registry).(kernel := Kernel(old(registry).kernel, call))
    {
      registry := registry.(kernel := Kernel(registry.kernel, call));
      pointers := if call.Del? then pointers - {c.fd} else pointers[c.fd := c];
    }

    method SetTable(table: map<int, Channel>)
      requires Valid() && forall fd | fd in table :: fd in objects && table[fd] == objects[fd]
      modifies `channels, `registry
      ensures Valid() && channels == table && registry == old(registry).(table := table.Keys)
    {
      channels := table;
      registry := registry.(table := table.Keys);
    }

    /** Registers, changes or unregisters, by the channel's index and mask. */
    method UpChannel(c: Channel)
      requires Knows(c) && AgreeBut(registry, c.fd)
      modifies this, c`index
      ensures Knows(c) && objects == old(objects) && registry == Up(old(registry), c.fd)
    {
      if c.index != In {
        Register(c);
      } else {
        Change(c);
      }
    }

    method Register(c: Channel)
      requires Knows(c) && AgreeBut(registry, c.fd) && c.index != In
      modifies this, c`index
      ensures Knows(c) && objects == old(objects) && registry == Up(old(registry), c.fd)
    {
      Enlist(c);
      Update(c, Add(c.fd, c.events));
      SetIndex(c, In);
    }

    method Enlist(c: Channel)
      requires Knows(c) && (c.fd in registry.table <==> c.index != New)
      modifies `channels, `registry
      ensures Knows(c) && registry == old(registry).(table := old(registry).table + {c.fd})
    {
      if c.index == New {
        KeysWith(channels, c);
        SetTable(channels[c.fd := c]);
      } else {
        TableKept(registry, c.fd);
      }
    }

    method Change(c: Channel)
      requires Knows(c) && AgreeBut(registry, c.fd) && c.index == In
      modifies this, c`index
      ensures Knows(c) && objects == old(objects) && registry == Up(old(registry), c.fd)
    {
      ghost var r, call := registry, UpCall(registry, c.fd);
      assert c.fd in channels && channels[c.fd] == c;
      if c.IsNoEvent() {
        SetIndex(c, Deleted);
      }
      Update(c, call);
      TableKept(r, c.fd);
      SameIndex(r, c.fd);
    }

    static lemma KeysWithout(m: map<int, Channel>, fd: int)
      ensures (m - {fd}).Keys == m.Keys - {fd}
    {
    }

    static lemma KeysWith(m: map<int, Channel>, c: Channel)
      ensures m[c.fd := c].Keys == m.Keys + {c.fd}
    {
    }

    static lemma TableKept(r: Registry, fd: int)
      requires fd in r.table
      ensures r.table + {fd} == r.table
    {
    }

    static lemma SameIndex(r: Registry, fd: int)
      requires fd in r.chans
      ensures WithIndex(r, fd, r.chans[fd].index) == r
    {
      assert r.chans[fd := r.chans[fd]] == r.chans;
    }

    method RemoveChannel(c: Channel)
      requires Knows(c) && Agree(registry) && Enabled(registry, Remove(c.fd))
      modifies this, c`index
      ensures Knows(c) && objects == old(objects) && registry == Step(old(registry), Remove(c.fd))
    {
      ghost var r := registry;
      KeysWithout(channels, c.fd);
      SetTable(channels - {c.fd});
      Unregister(c);
      assert registry.table == r.table - {c.fd};
      SetIndex(c, New);
    }

    method Unregister(c: Channel)
      requires Knows(c) && (c.fd in registry.kernel <==> c.index == In)
      modifies `registry, `pointers
      ensures Knows(c) && registry ==
        if c.index == In then old(registry).(kernel := Kernel(old(registry).kernel, Del(c.fd))) else old(registry)
    {
      if c.index == In {
        Update(c, Del(c.fd));
      }
    }

    /** What the kernel keeps is registered. */
    lemma PointerFound(fd: int)
      requires Valid() && Agree(registry) && fd in pointers
      ensures pointers[fd].fd == fd && fd in channels && channels[fd] == pointers[fd]
    {
      assert Mirrors(objects[fd], fd);
    }

    /** Hands out the reported channels. The kernel reports the pointers it keeps, those of `fds`, each once;
        every one is a channel that the table has under its descriptor. */
    method FillActiveChannel(reported: seq<(Channel, bv8)>, ghost fds: seq<int>) returns (active: seq<Channel>)
      requires Valid() && Agree(registry) && |fds| == |reported|
      requires forall i | 0 <= i < |fds| :: fds[i] in pointers && pointers[fds[i]] == reported[i].0
      requires forall i, j | 0 <= i < j < |fds| :: fds[i] != fds[j]
      modifies set i | 0 <= i < |reported| :: reported[i].0`revents
      ensures Valid() && |active| == |reported|
      ensures forall i | 0 <= i < |reported| :: active[i] == reported[i].0 && active[i].revents == reported[i].1
      ensures forall c | c in active :: c.fd in channels && channels[c.fd] == c
    {
      forall i | 0 <= i < |fds|
        ensures reported[i].0.fd == fds[i] && fds[i] in channels && channels[fds[i]] == reported[i].0
      {
        PointerFound(fds[i]);
      }
      active := [];
      var i := 0;
      while i < |reported|
        invariant 0 <= i == |active| <= |reported|
        invariant Valid()
        invariant forall j | 0 <= j < i :: active[j] == reported[j].0 && active[j].revents == reported[j].1
      {
        var channel := reported[i].0;
        assert channel.fd in channels && channels[channel.fd] == channel;
        channel.revents := reported[i].1;
        active := active + [channel];
        i := i + 1;
      }
    }
  }
}
