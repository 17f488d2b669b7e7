/** The two channel registries: muduo/net/poller/PollPoller.cc and muduo/net/poller/EPollPoller.cc. */
module Pollers {
  type Mask = bv16

  const NONE: Mask := 0
  const READ: Mask := 3    // POLLIN | POLLPRI
  const WRITE: Mask := 4   // POLLOUT

  class Channel {
    const fd: nat
    var events: Mask
    var revents: int
    var index: int

    constructor (fd: nat)
      ensures this.fd == fd && events == NONE && revents == 0 && index == -1
    {
      this.fd := fd;
      events, revents, index := NONE, 0, -1;
    }

    predicate IsNoneEvent()
      reads this`events
    {
      events == NONE
    }

    predicate IsWriting()
      reads this`events
    {
      events & WRITE != 0
    }
  }

  /** What a client does to a channel of a poller: change its mask and update, or remove it. */
  datatype Op = Set(ch: Channel, events: Mask) | Remove(ch: Channel)

  /** Turning writability on and off is seen by isWriting and leaves the read events alone. */
  lemma WritingBit(m: Mask)
    ensures (m | WRITE) & WRITE != 0 && (m & !WRITE) & WRITE == 0
    ensures (m | WRITE) & READ == m & READ && (m & !WRITE) & READ == m & READ
  {
  }
}

module PollPollers {
  import opened Pollers

  /** struct pollfd; a negative fd is ignored by poll(2) and is the complement of the real one. */
  datatype PollFd = PollFd(fd: int, events: Mask, revents: int)

  function Decode(fd: int): nat {
    if fd < 0 then -fd - 1 else fd
  }

  function Ignored(fd: nat): int {
    -1 - fd
  }

  /** What poll(2) watches for an entry. */
  function Watched(p: PollFd): Mask {
    if p.fd < 0 then NONE else p.events
  }

  function Registered(fd: nat, events: Mask): PollFd {
    PollFd(fd, events, 0)
  }

  /** updateChannel on an existing entry: an empty mask negates the fd, and nothing restores it. */
  function Updated(p: PollFd, fd: nat, events: Mask): PollFd {
    PollFd(if events == NONE then Ignored(fd) else p.fd, events, 0)
  }

  /** The registry on its own: each descriptor's channel and slot. */
  datatype Entry = Entry(ch: Channel, slot: PollFd)
  type Registry = map<nat, Entry>

  function Apply(m: Registry, op: Op): Registry {
    var fd := op.ch.fd;
    match op
    case Set(ch, events) =>
      m[fd := Entry(ch, if fd in m then Updated(m[fd].slot, fd, events) else Registered(fd, events))]
    case Remove(ch) => m - {fd}
  }

  /** A descriptor has one channel at a time; a channel is removed once it is registered, muted and asks for nothing. */
  predicate LegalOp(m: Registry, op: Op) {
    match op
    case Set(ch, _) => ch.fd in m ==> m[ch.fd].ch == ch
    case Remove(ch) => ch.fd in m && m[ch.fd].ch == ch && m[ch.fd].slot.fd == Ignored(ch.fd) && m[ch.fd].slot.events == NONE
  }

  /** A removed channel object keeps its old index, so it may not come back. */
  predicate Legal(m: Registry, ops: seq<Op>)
    decreases |ops|
  {
    ops == [] ||
    (&& LegalOp(m, ops[0])
     && (ops[0].Remove? ==> forall op :: op in ops[1..] ==> op.ch != ops[0].ch)
     && Legal(Apply(m, ops[0]), ops[1..]))
  }

  function ApplyAll(m: Registry, ops: seq<Op>): Registry
    decreases |ops|
  {
    if ops == [] then m else ApplyAll(Apply(m, ops[0]), ops[1..])
  }

  function Zip(chs: map<nat, Channel>, slots: map<nat, PollFd>): Registry {
    map f | f in chs && f in slots :: Entry(chs[f], slots[f])
  }

  lemma ZipSteps(chs: map<nat, Channel>, slots: map<nat, PollFd>, fd: nat, ch: Channel, slot: PollFd)
    ensures Zip(chs[fd := ch], slots[fd := slot]) == Zip(chs, slots)[fd := Entry(ch, slot)]
    ensures Zip(chs - {fd}, slots - {fd}) == Zip(chs, slots) - {fd}
  {
  }

  /** Descriptors and slots correspond one to one through the index. */
  predicate Bijective(ix: map<nat, int>, slots: seq<PollFd>) {
    && (forall f :: f in ix ==> 0 <= ix[f] < |slots| && Decode(slots[ix[f]].fd) == f)
    && (forall i :: 0 <= i < |slots| ==> Decode(slots[i].fd) in ix && ix[Decode(slots[i].fd)] == i)
  }

  function SlotsOf(ix: map<nat, int>, slots: seq<PollFd>): (m: map<nat, PollFd>)
    requires Bijective(ix, slots)
    ensures m.Keys == ix.Keys
  {
    map f | f in ix :: slots[ix[f]]
  }

  lemma SlotAt(ix: map<nat, int>, slots: seq<PollFd>, f: nat)
    requires Bijective(ix, slots) && f in ix
    ensures 0 <= ix[f] < |slots| && SlotsOf(ix, slots)[f] == slots[ix[f]] && Decode(slots[ix[f]].fd) == f
  {
  }

  /** A new descriptor takes a new last slot. */
  lemma AddSlot(ix: map<nat, int>, slots: seq<PollFd>, p: PollFd)
    requires Bijective(ix, slots) && Decode(p.fd) !in ix
    ensures var ix' := ix[Decode(p.fd) := |slots|];
            Bijective(ix', slots + [p]) && SlotsOf(ix', slots + [p]) == SlotsOf(ix, slots)[Decode(p.fd) := p]
  {
  }

  /** Rewriting a slot in place, negated or not, keeps every index. */
  lemma RewriteSlot(ix: map<nat, int>, slots: seq<PollFd>, f: nat, p: PollFd)
    requires Bijective(ix, slots) && f in ix && Decode(p.fd) == f
    ensures Bijective(ix, slots[ix[f] := p]) && SlotsOf(ix, slots[ix[f] := p]) == SlotsOf(ix, slots)[f := p]
  {
  }

  /** Popping the last slot. */
  lemma PopSlot(ix: map<nat, int>, slots: seq<PollFd>, f: nat)
    requires Bijective(ix, slots) && f in ix && ix[f] == |slots| - 1
    ensures Bijective(ix - {f}, slots[..ix[f]]) && SlotsOf(ix - {f}, slots[..ix[f]]) == SlotsOf(ix, slots) - {f}
  {
  }

  /** The index and the slots after the last slot moved into the one of `f`. */
  function MovedIndex(ix: map<nat, int>, slots: seq<PollFd>, f: nat): map<nat, int>
    requires f in ix && slots != []
  {
    (ix - {f})[Decode(slots[|slots| - 1].fd) := ix[f]]
  }

  function MovedSlots(ix: map<nat, int>, slots: seq<PollFd>, f: nat): seq<PollFd>
    requires f in ix && 0 <= ix[f] < |slots|
  {
    slots[ix[f] := slots[|slots| - 1]][..|slots| - 1]
  }

  lemma MoveLastIndex(ix: map<nat, int>, slots: seq<PollFd>, f: nat)
    requires Bijective(ix, slots) && f in ix && ix[f] < |slots| - 1
    ensures 0 <= ix[f] && Bijective(MovedIndex(ix, slots, f), MovedSlots(ix, slots, f))
  {
    var last := |slots| - 1;
    var g := Decode(slots[last].fd);
    assert g != f && ix[g] == last;
  }

  lemma MoveLastEntries(ix: map<nat, int>, slots: seq<PollFd>, f: nat)
    requires Bijective(ix, slots) && f in ix && 0 <= ix[f] < |slots| - 1
    requires Bijective(MovedIndex(ix, slots, f), MovedSlots(ix, slots, f))
    ensures SlotsOf(MovedIndex(ix, slots, f), MovedSlots(ix, slots, f)) == SlotsOf(ix, slots) - {f}
  {
    var last := |slots| - 1;
    var g := Decode(slots[last].fd);
    var ix', slots' := MovedIndex(ix, slots, f), MovedSlots(ix, slots, f);
    assert g != f && ix[g] == last;
    assert forall h :: h in ix' && h != g ==> slots'[ix'[h]] == slots[ix[h]];
  }

  /** Moving the last slot into a vacated one and re-targeting the index of its descriptor, even a negated one. */
  lemma MoveLastSlot(ix: map<nat, int>, slots: seq<PollFd>, f: nat)
    requires Bijective(ix, slots) && f in ix && ix[f] < |slots| - 1
    ensures 0 <= ix[f]
    ensures var ix', slots' := MovedIndex(ix, slots, f), MovedSlots(ix, slots, f);
            Bijective(ix', slots') && SlotsOf(ix', slots') == SlotsOf(ix, slots) - {f}
  {
    hide Bijective, SlotsOf;
    MoveLastIndex(ix, slots, f);
    MoveLastEntries(ix, slots, f);
  }

  /** What the channels of the first `k` slots are told: the events poll reported there, if any. */
  function Told(ix: map<nat, int>, slots: seq<PollFd>, before: map<nat, int>, k: nat): map<nat, int>
    requires Bijective(ix, slots) && before.Keys == ix.Keys
  {
    map f | f in ix :: if ix[f] < k && slots[ix[f]].revents > 0 then slots[ix[f]].revents else before[f]
  }

  /** After all the slots every channel has what poll reported in its own slot, or what it had before if that is nothing. */
  lemma ToldMeaning(ix: map<nat, int>, slots: seq<PollFd>, before: map<nat, int>)
    requires Bijective(ix, slots) && before.Keys == ix.Keys
    ensures var told := Told(ix, slots, before, |slots|);
            && told.Keys == ix.Keys
            && forall f :: f in ix ==> told[f] == if SlotsOf(ix, slots)[f].revents > 0 then SlotsOf(ix, slots)[f].revents else before[f]
  {
  }

  lemma ToldNone(ix: map<nat, int>, slots: seq<PollFd>, before: map<nat, int>)
    requires Bijective(ix, slots) && before.Keys == ix.Keys
    ensures Told(ix, slots, before, 0) == before
  {
  }

  lemma TellNext(ix: map<nat, int>, slots: seq<PollFd>, before: map<nat, int>, k: nat)
    requires Bijective(ix, slots) && before.Keys == ix.Keys && k < |slots|
    ensures var told := Told(ix, slots, before, k);
            Told(ix, slots, before, k + 1) ==
            if slots[k].revents > 0 then told[Decode(slots[k].fd) := slots[k].revents] else told
  {
  }

  lemma ToldAll(ix: map<nat, int>, slots: seq<PollFd>, before: map<nat, int>, k: nat)
    requires Bijective(ix, slots) && before.Keys == ix.Keys && k <= |slots|
    requires forall j :: k <= j < |slots| ==> slots[j].revents <= 0
    ensures Told(ix, slots, before, k) == Told(ix, slots, before, |slots|)
  {
  }

  class PollPoller {
    var pollfds: seq<PollFd>
    var channels: map<nat, Channel>

    ghost function Index(): (ix: map<nat, int>)
      reads this, channels.Values`index
      ensures ix.Keys == channels.Keys
    {
      map f | f in channels :: channels[f].index
    }

    /** Registered channels and slots correspond one to one through index and fd. */
    ghost predicate Valid()
      reads this, channels.Values`index
    {
      (forall f :: f in channels ==> channels[f].fd == f) && Bijective(Index(), pollfds)
    }

    /** The registry as a map from descriptors to their entries. */
    ghost function Entries(): (m: map<nat, PollFd>)
      requires Valid()
      reads this, channels.Values`index
      ensures m.Keys == channels.Keys
    {
      SlotsOf(Index(), pollfds)
    }

    constructor ()
      ensures Valid() && Entries() == map[]
    {
      pollfds, channels := [], map[];
    }

    method UpdateChannel(ch: Channel)
      requires Valid()
      requires if ch.index < 0 then ch.fd !in channels else ch.fd in channels && channels[ch.fd] == ch
      modifies this, ch`index
      ensures Valid() && channels == old(channels)[ch.fd := ch]
      ensures Entries() == old(Entries())[ch.fd :=
                if old(ch.index) < 0 then Registered(ch.fd, ch.events) else Updated(old(Entries())[ch.fd], ch.fd, ch.events)]
    {
      if ch.index < 0 {
        Register(ch);
      } else {
        Modify(ch);
      }
    }

    /** A new channel gets a new last slot. */
    method Register(ch: Channel)
      requires Valid() && ch.index < 0 && ch.fd !in channels
      modifies this, ch`index
      ensures Valid() && channels == old(channels)[ch.fd := ch]
      ensures Entries() == old(Entries())[ch.fd := Registered(ch.fd, ch.events)]
    {
      hide Bijective, SlotsOf;
      var pfd := PollFd(ch.fd, ch.events, 0);
      AddSlot(Index(), pollfds, pfd);
      pollfds := pollfds + [pfd];
      ch.index := |pollfds| - 1;
      channels := channels[ch.fd := ch];
      assert Index() == old(Index())[ch.fd := old(|pollfds|)];
    }

    /** A known channel's slot is rewritten in place. */
    method Modify(ch: Channel)
      requires Valid() && ch.fd in channels && channels[ch.fd] == ch
      modifies this`pollfds
      ensures Valid() && channels == old(channels)[ch.fd := ch]
      ensures Entries() == old(Entries())[ch.fd := Updated(old(Entries())[ch.fd], ch.fd, ch.events)]
    {
      hide Bijective, SlotsOf;
      var idx := ch.index;
      SlotAt(Index(), pollfds, ch.fd);
      var pfd := pollfds[idx].(events := ch.events, revents := 0);
      if ch.IsNoneEvent() {
        pfd := pfd.(fd := -1 - ch.fd);
      }
      RewriteSlot(Index(), pollfds, ch.fd, pfd);
      pollfds := pollfds[idx := pfd];
      assert Index() == old(Index());
    }

    /** Swap with the last slot and pop; the channel of the moved slot gets its new index. */
    method RemoveChannel(ch: Channel)
      requires Valid() && ch.fd in channels && channels[ch.fd] == ch && ch.IsNoneEvent()
      requires Entries()[ch.fd].fd == Ignored(ch.fd)
      modifies this, channels.Values`index
      ensures Valid() && channels == old(channels) - {ch.fd}
      ensures Entries() == old(Entries()) - {ch.fd}
    {
      var idx := ch.index;
      assert Index()[ch.fd] == idx;
      if idx == |pollfds| - 1 {
        PopSlot(Index(), pollfds, ch.fd);
        channels := channels - {ch.fd};
        pollfds := pollfds[..idx];
        assert Index() == old(Index()) - {ch.fd};
      } else {
        SwapOut(ch, idx);
      }
    }

    method SwapOut(ch: Channel, idx: nat)
      requires Valid() && ch.fd in channels && channels[ch.fd] == ch && ch.index == idx < |pollfds| - 1
      modifies this, channels.Values`index
      ensures Valid() && channels == old(channels) - {ch.fd}
      ensures Entries() == old(Entries()) - {ch.fd}
    {
      hide SlotsOf;
      var last := |pollfds| - 1;
      var moved := pollfds[last];
      var channelAtEnd := moved.fd;
      if channelAtEnd < 0 {
        channelAtEnd := -channelAtEnd - 1;
      }
      assert channelAtEnd == Decode(moved.fd) && Index()[ch.fd] == idx && Index()[channelAtEnd] == last;
      MoveLastSlot(Index(), pollfds, ch.fd);
      channels := channels - {ch.fd};
      pollfds := pollfds[idx := moved][..last];
      channels[channelAtEnd].index := idx;
      assert Index() == (old(Index()) - {ch.fd})[channelAtEnd := idx];
    }

    /** The registry the poller stands for. */
    ghost function View(): (m: Registry)
      requires Valid()
      reads this, channels.Values`index
    {
      Zip(channels, Entries())
    }

    /** Every slot has the mask its channel asks for. */
    ghost predicate Synced()
      requires Valid()
      reads this, channels.Values
    {
      forall f :: f in channels ==> Entries()[f].events == channels[f].events
    }

    /** A channel has a slot number exactly while it is registered. */
    ghost predicate Marked(ch: Channel)
      reads this, ch`index
    {
      ch.index >= 0 <==> ch.fd in channels && channels[ch.fd] == ch
    }

    method SetEvents(ch: Channel, events: Mask)
      requires Valid() && Synced() && Marked(ch) && LegalOp(View(), Set(ch, events))
      modifies this, ch`events, ch`index
      ensures Valid() && Synced() && channels == old(channels)[ch.fd := ch]
      ensures View() == Apply(old(View()), Set(ch, events))
    {
      hide Valid, Entries;
      assert ch.fd in channels ==> View()[ch.fd] == Entry(ch, Entries()[ch.fd]);
      ghost var slots := Entries();
      ch.events := events;
      UpdateChannel(ch);
      ZipSteps(old(channels), slots, ch.fd, ch, Entries()[ch.fd]);
    }

    method RemoveMuted(ch: Channel)
      requires Valid() && Synced() && ch.fd in channels && channels[ch.fd] == ch
      requires Entries()[ch.fd].fd == Ignored(ch.fd) && Entries()[ch.fd].events == NONE
      modifies this, channels.Values`index
      ensures Valid() && Synced() && channels == old(channels) - {ch.fd}
      ensures Entries() == old(Entries()) - {ch.fd}
    {
      RemoveChannel(ch);
    }

    /** Part of the bijection: a registered channel is found under its own descriptor and has a slot. */
    lemma Seated()
      requires Valid()
      ensures forall f :: f in channels ==> channels[f].fd == f && channels[f].index >= 0
    {
      assert forall f :: f in channels ==> Index()[f] == channels[f].index;
    }

    method Perform(op: Op)
      requires Valid() && Synced() && Marked(op.ch) && LegalOp(View(), op)
      modifies this, op.ch`events, op.ch`index, channels.Values`index
      ensures Valid() && Synced() && View() == Apply(old(View()), op)
      ensures op.ch.fd in old(channels) ==> old(channels)[op.ch.fd] == op.ch
      ensures channels == if op.Set? then old(channels)[op.ch.fd := op.ch] else old(channels) - {op.ch.fd}
    {
      hide Valid, Entries;
      match op
      case Set(ch, events) =>
        assert ch.fd in channels ==> View()[ch.fd].ch == ch;
        SetEvents(ch, events);
      case Remove(ch) =>
        assert View()[ch.fd] == Entry(ch, Entries()[ch.fd]);
        ZipSteps(channels, Entries(), ch.fd, ch, Entries()[ch.fd]);
        RemoveMuted(ch);
    }

    /** Over every legal series of updates and removals the slots stay in bijection and hold what the registry says. */
    method Replay(ops: seq<Op>)
      requires Valid() && Synced() && (forall op :: op in ops ==> Marked(op.ch))
      requires Legal(View(), ops)
      modifies this, channels.Values, set op | op in ops :: op.ch
      ensures Valid() && Synced() && View() == ApplyAll(old(View()), ops)
      decreases |ops|
    {
      hide Valid, Synced, View;
      if ops != [] {
        Seated();
        Perform(ops[0]);
        Seated();
        Replay(ops[1..]);
      }
    }

    /** The channels of the slots from `i` on that poll reported, in slot order. */
    ghost function Reported(i: nat): seq<Channel>
      requires Valid() && i <= |pollfds|
      reads this, channels.Values`index
      decreases |pollfds| - i
    {
      if i == |pollfds| then []
      else (if pollfds[i].revents > 0 then [channels[Decode(pollfds[i].fd)]] else []) + Reported(i + 1)
    }

    /** A registered channel is reported exactly when its slot was. */
    lemma {:induction false} ReportedIff(i: nat, f: nat)
      requires Valid() && i <= |pollfds| && f in channels
      ensures channels[f] in Reported(i) <==> i <= Index()[f] && Entries()[f].revents > 0
      decreases |pollfds| - i
    {
      ReportedStep(i);
      assert 0 <= Index()[f] < |pollfds|;
      if i < |pollfds| {
        ReportedIff(i + 1, f);
        SlotChannel(i);
        var g := Decode(pollfds[i].fd);
        hide Reported, Bijective;
        assert channels[f] == channels[g] ==> f == g;
      }
    }

    /** And the reported ones come in the order of their slots, so each once. */
    lemma {:induction false} ReportedInOrder(i: nat)
      requires Valid() && i <= |pollfds|
      ensures forall j :: 0 <= j < |Reported(i)| ==> i <= Reported(i)[j].index
      ensures forall j, k :: 0 <= j < k < |Reported(i)| ==> Reported(i)[j].index < Reported(i)[k].index
      decreases |pollfds| - i
    {
      ReportedStep(i);
      if i < |pollfds| {
        ReportedInOrder(i + 1);
        SlotChannel(i);
      }
    }

    ghost function Revents(): (r: map<nat, int>)
      reads this, channels.Values`revents
      ensures r.Keys == channels.Keys
    {
      map f | f in channels :: channels[f].revents
    }

    lemma SlotChannel(i: nat)
      requires Valid() && i < |pollfds|
      ensures var f := Decode(pollfds[i].fd);
              f in channels && channels[f].fd == f && f in Index() && Index()[f] == i
    {
    }

    /** set_revents on the channel of slot `i`, when poll reported it. */
    method Tell(i: nat, ghost before: map<nat, int>) returns (channel: Channel)
      requires Valid() && i < |pollfds| && 0 < pollfds[i].revents && 0 <= pollfds[i].fd
      requires before.Keys == channels.Keys && Revents() == Told(Index(), pollfds, before, i)
      modifies channels.Values`revents
      ensures pollfds[i].fd in channels && channel == channels[pollfds[i].fd]
      ensures Revents() == Told(Index(), pollfds, before, i + 1)
    {
      hide Bijective;
      SlotChannel(i);
      channel := channels[pollfds[i].fd];
      channel.revents := pollfds[i].revents;
      TellNext(Index(), pollfds, before, i);
      assert Revents() == old(Revents())[pollfds[i].fd := pollfds[i].revents];
    }

    /** Walks the slots until `numEvents` reported ones are found: all of them, each once and told its events. */
    method FillActiveChannels(numEvents: nat) returns (active: seq<Channel>)
      requires Valid() && numEvents == |Reported(0)|
      requires forall i :: 0 <= i < |pollfds| && pollfds[i].fd < 0 ==> pollfds[i].revents == 0
      modifies channels.Values`revents
      ensures Valid() && active == Reported(0)
      ensures Revents() == Told(Index(), pollfds, old(Revents()), |pollfds|)
    {
      hide Bijective, Told, Revents, Index, Reported;
      active := [];
      var n := numEvents;
      var i := 0;
      ghost var before := Revents();
      ToldNone(Index(), pollfds, before);
      while i < |pollfds| && n > 0
        invariant 0 <= i <= |pollfds| && n == |Reported(i)|
        invariant active + Reported(i) == Reported(0)
        invariant Revents() == Told(Index(), pollfds, before, i)
      {
        ReportedStep(i);
        if pollfds[i].revents > 0 {
          n := n - 1;
          var channel := Tell(i, before);
          active := active + [channel];
        } else {
          TellNext(Index(), pollfds, before, i);
        }
        i := i + 1;
      }
      ReportedStep(i);
      NoneReported(i);
      ToldAll(Index(), pollfds, before, i);
    }

    lemma ReportedStep(i: nat)
      requires Valid() && i <= |pollfds|
      ensures i == |pollfds| ==> Reported(i) == []
      ensures i < |pollfds| ==>
              var f := Decode(pollfds[i].fd);
              && f in channels
              && Reported(i) == (if pollfds[i].revents > 0 then [channels[f]] else []) + Reported(i + 1)
    {
    }

    /** No report from slot `i` on means no slot from there on was reported. */
    lemma {:induction false} NoneReported(i: nat)
      requires Valid() && i <= |pollfds| && Reported(i) == []
      ensures forall k :: i <= k < |pollfds| ==> pollfds[k].revents <= 0
      decreases |pollfds| - i
    {
      if i < |pollfds| {
        NoneReported(i + 1);
      }
    }
  }

  // ----- what is watched over the life of a registration -----

  /** The entry after registration and a series of updates. */
  function Life(fd: nat, first: Mask, updates: seq<Mask>): PollFd {
    if updates == [] then Registered(fd, first)
    else Updated(Life(fd, first, updates[..|updates| - 1]), fd, updates[|updates| - 1])
  }

  lemma {:induction false} LifeMuted(fd: nat, first: Mask, updates: seq<Mask>)
    ensures Life(fd, first, updates).fd == if NONE in updates then Ignored(fd) else fd
  {
    if updates != [] {
      var front := updates[..|updates| - 1];
      LifeMuted(fd, first, front);
      assert updates == front + [updates[|updates| - 1]];
    }
  }

  /** A slot asks for the last mask, reports nothing before the next poll, and names its descriptor, negated or not. */
  lemma LifeFields(fd: nat, first: Mask, updates: seq<Mask>)
    ensures var slot := Life(fd, first, updates);
            && slot.revents == 0 && slot.events == (if updates == [] then first else updates[|updates| - 1])
            && (slot.fd == fd || slot.fd == -1 - fd) && (slot.fd < 0 <==> NONE in updates) && Decode(slot.fd) == fd
  {
    LifeMuted(fd, first, updates);
  }

  lemma LifeWatched(fd: nat, first: Mask, updates: seq<Mask>)
    ensures var slot := Life(fd, first, updates);
            Watched(slot) == slot.events <==> slot.events == NONE || NONE !in updates
  {
    LifeMuted(fd, first, updates);
  }

  /** The masks asked for under descriptor `f` since its present registration, the registering one first. */
  function Since(ops: seq<Op>, f: nat): seq<Mask> {
    if ops == [] then []
    else
      var before, op := Since(ops[..|ops| - 1], f), ops[|ops| - 1];
      if op.ch.fd != f then before else if op.Set? then before + [op.events] else []
  }

  lemma {:induction false} ApplyAllSnoc(m: Registry, ops: seq<Op>, op: Op)
    ensures ApplyAll(m, ops + [op]) == Apply(ApplyAll(m, ops), op)
    decreases |ops|
  {
    if ops == [] {
      assert [op][1..] == [];
    } else {
      assert (ops + [op])[1..] == ops[1..] + [op];
      ApplyAllSnoc(Apply(m, ops[0]), ops[1..], op);
    }
  }

  /** A run of the registry leaves in each slot the life of its present registration. */
  lemma {:induction false} SlotHistory(ops: seq<Op>, f: nat)
    ensures var m, masks := ApplyAll(map[], ops), Since(ops, f);
            && (f in m <==> masks != [])
            && (f in m ==> m[f].slot == Life(f, masks[0], masks[1..]))
    decreases |ops|
  {
    hide Updated, Registered;
    if ops != [] {
      var front, op := ops[..|ops| - 1], ops[|ops| - 1];
      assert ops == front + [op];
      SlotHistory(front, f);
      ApplyAllSnoc(map[], front, op);
      var before := Since(front, f);
      if op.Set? && op.ch.fd == f && before != [] {
        assert (before + [op.events])[1..] == before[1..] + [op.events];
        assert (before[1..] + [op.events])[..|before| - 1] == before[1..];
      }
    }
  }

  /**
   * Over every run of updates and removals: poll watches what a registered channel asks for exactly when that is
   * nothing, or no update since its registration asked for nothing. Re-enabling an ignored channel does not bring it back.
   */
  lemma WatchedIff(ops: seq<Op>, f: nat)
    requires f in ApplyAll(map[], ops)
    ensures var slot, masks := ApplyAll(map[], ops)[f].slot, Since(ops, f);
            && masks != [] && slot.events == masks[|masks| - 1]
            && (Watched(slot) == slot.events <==> slot.events == NONE || NONE !in masks[1..])
  {
    SlotHistory(ops, f);
    var masks := Since(ops, f);
    LifeWatched(f, masks[0], masks[1..]);
  }

  /** Enable, disable, enable again: a legal run after which poll watches nothing. */
  lemma ReEnabledIsIgnored(ch: Channel)
    ensures var ops := [Set(ch, READ), Set(ch, NONE), Set(ch, READ)];
            && Legal(map[], ops) && ch.fd in ApplyAll(map[], ops)
            && ApplyAll(map[], ops)[ch.fd].slot.events == READ && Watched(ApplyAll(map[], ops)[ch.fd].slot) == NONE
  {
    var on, off := Set(ch, READ), Set(ch, NONE);
    var m1 := Apply(map[], on);
    var m2 := Apply(m1, off);
    var m3 := Apply(m2, on);
    assert [on][1..] == [] && [off, on][1..] == [on] && [on, off, on][1..] == [off, on];
    assert Legal(m3, []) && Legal(m2, [on]) && Legal(m1, [off, on]);
    assert ApplyAll(m3, []) == m3 && ApplyAll(m2, [on]) == m3 && ApplyAll(m1, [off, on]) == m3;
  }
}

module EPollPollers {
  import opened Pollers

  const NEW := -1      // not registered
  const ADDED := 1     // registered and in the kernel set
  const DELETED := 2   // registered, not in the kernel set

  /** The simple registry: each descriptor's channel and mask. */
  datatype Entry = Entry(ch: Channel, mask: Mask)
  type Registry = map<nat, Entry>

  function Apply(m: Registry, op: Op): Registry {
    match op
    case Set(ch, events) => m[ch.fd := Entry(ch, events)]
    case Remove(ch) => m - {ch.fd}
  }

  /** A descriptor has one channel at a time, and only a registered channel that asks for nothing is removed. */
  predicate LegalOp(m: Registry, op: Op) {
    match op
    case Set(ch, _) => ch.fd in m ==> m[ch.fd].ch == ch
    case Remove(ch) => ch.fd in m && m[ch.fd] == Entry(ch, NONE)
  }

  predicate Legal(m: Registry, ops: seq<Op>)
    decreases |ops|
  {
    ops == [] || (LegalOp(m, ops[0]) && Legal(Apply(m, ops[0]), ops[1..]))
  }

  function ApplyAll(m: Registry, ops: seq<Op>): Registry
    decreases |ops|
  {
    if ops == [] then m else ApplyAll(Apply(m, ops[0]), ops[1..])
  }

  /** The mask the kernel has for a descriptor, an absent entry meaning none. */
  function Effective(kernel: map<nat, Mask>, fd: nat): Mask {
    if fd in kernel then kernel[fd] else NONE
  }

  /** The mask in force for each registered descriptor. */
  function InForce(chs: map<nat, Channel>, kernel: map<nat, Mask>): (m: map<nat, Mask>)
    ensures m.Keys == chs.Keys
  {
    map f | f in chs :: Effective(kernel, f)
  }

  function Joined(chs: map<nat, Channel>, masks: map<nat, Mask>): Registry {
    map f | f in chs && f in masks :: Entry(chs[f], masks[f])
  }

  lemma InForceSteps(chs: map<nat, Channel>, kernel: map<nat, Mask>, ch: Channel, events: Mask)
    ensures InForce(chs[ch.fd := ch], kernel[ch.fd := events]) == InForce(chs, kernel)[ch.fd := events]
    ensures InForce(chs[ch.fd := ch], kernel - {ch.fd}) == InForce(chs, kernel)[ch.fd := NONE]
    ensures InForce(chs - {ch.fd}, kernel - {ch.fd}) == InForce(chs, kernel) - {ch.fd}
    ensures ch.fd !in kernel ==> kernel - {ch.fd} == kernel
  {
  }

  lemma JoinedSteps(chs: map<nat, Channel>, masks: map<nat, Mask>, ch: Channel, events: Mask)
    ensures Joined(chs[ch.fd := ch], masks[ch.fd := events]) == Joined(chs, masks)[ch.fd := Entry(ch, events)]
    ensures Joined(chs - {ch.fd}, masks - {ch.fd}) == Joined(chs, masks) - {ch.fd}
  {
  }

  class EPollPoller {
    var channels: map<nat, Channel>
    var kernel: map<nat, Mask>

    ghost predicate Valid()
      reads this, channels.Values
    {
      && (forall f :: f in channels ==>
           channels[f].fd == f && (channels[f].index == ADDED || channels[f].index == DELETED))
      && (forall f :: f in kernel <==> f in channels && channels[f].index == ADDED)
    }

    /** The simple registry: each descriptor with the mask in force. */
    ghost function Interest(): (m: map<nat, Mask>)
      reads this
    {
      InForce(channels, kernel)
    }

    /** Every registered channel other than `ch` has in force what it asks for. */
    ghost predicate SyncedBut(ch: Channel)
      requires Valid()
      reads this, channels.Values
    {
      forall f :: f in channels && channels[f] != ch ==> Effective(kernel, f) == channels[f].events
    }

    ghost predicate Synced()
      requires Valid()
      reads this, channels.Values
    {
      forall f :: f in channels ==> Effective(kernel, f) == channels[f].events
    }

    constructor ()
      ensures Valid() && Synced() && Interest() == map[]
    {
      channels, kernel := map[], map[];
    }

    // epoll_ctl; a call outside these preconditions fails with EEXIST or ENOENT

    method CtlAdd(fd: nat, events: Mask)
      requires fd !in kernel
      modifies this`kernel
      ensures kernel == old(kernel)[fd := events]
    {
      kernel := kernel[fd := events];
    }

    method CtlMod(fd: nat, events: Mask)
      requires fd in kernel
      modifies this`kernel
      ensures kernel == old(kernel)[fd := events]
    {
      kernel := kernel[fd := events];
    }

    method CtlDel(fd: nat)
      requires fd in kernel
      modifies this`kernel
      ensures kernel == old(kernel) - {fd}
    {
      kernel := kernel - {fd};
    }

    /** A channel may be updated when it is registered here, or is new and its descriptor is free. */
    ghost predicate Known(ch: Channel)
      reads this, ch`index
    {
      if ch.index == NEW then ch.fd !in channels else ch.fd in channels && channels[ch.fd] == ch
    }

    method UpdateChannel(ch: Channel)
      requires Valid() && Known(ch) && SyncedBut(ch)
      modifies this, ch`index
      ensures Valid() && Known(ch) && Synced() && ch.index != NEW
      ensures channels == old(channels)[ch.fd := ch]
      ensures Interest() == old(Interest())[ch.fd := ch.events]
    {
      hide Synced, SyncedBut, InForce;
      InForceSteps(channels, kernel, ch, ch.events);
      if ch.index == NEW || ch.index == DELETED {
        Add(ch);
      } else {
        Change(ch);
      }
    }

    /** kNew or kDeleted: (re)enter the kernel set. */
    method Add(ch: Channel)
      requires Valid() && Known(ch) && SyncedBut(ch) && ch.index != ADDED
      modifies this, ch`index
      ensures Valid() && Synced() && ch.index == ADDED
      ensures channels == old(channels)[ch.fd := ch] && kernel == old(kernel)[ch.fd := ch.events]
    {
      assert forall f :: f in channels && channels[f] == ch ==> f == ch.fd && ch.index != NEW;
      if ch.index == NEW {
        channels := channels[ch.fd := ch];
      }
      ch.index := ADDED;
      CtlAdd(ch.fd, ch.events);
    }

    /** kAdded: leave the kernel set when nothing is asked for, else change the mask. */
    method Change(ch: Channel)
      requires Valid() && Known(ch) && SyncedBut(ch) && ch.index == ADDED
      modifies this`kernel, ch`index
      ensures Valid() && Synced() && ch.index != NEW
      ensures channels == old(channels)[ch.fd := ch]
      ensures kernel == if ch.events == NONE then old(kernel) - {ch.fd} else old(kernel)[ch.fd := ch.events]
    {
      assert forall f :: f in channels && channels[f] == ch ==> f == ch.fd;
      if ch.IsNoneEvent() {
        CtlDel(ch.fd);
        ch.index := DELETED;
      } else {
        CtlMod(ch.fd, ch.events);
      }
    }

    method RemoveChannel(ch: Channel)
      requires Valid() && Synced() && ch.index != NEW && Known(ch) && ch.IsNoneEvent()
      modifies this, ch`index
      ensures Valid() && Known(ch) && Synced() && ch.index == NEW
      ensures channels == old(channels) - {ch.fd}
      ensures Interest() == old(Interest()) - {ch.fd}
    {
      channels := channels - {ch.fd};
      if ch.index == ADDED {
        CtlDel(ch.fd);
      }
      ch.index := NEW;
    }

    // Channel's mutators: change the mask, then tell the poller

    method SetEvents(ch: Channel, events: Mask)
      requires Valid() && Known(ch) && Synced()
      modifies this, ch`events, ch`index
      ensures Valid() && Known(ch) && Synced() && ch.index != NEW && ch.events == events
      ensures channels == old(channels)[ch.fd := ch]
      ensures Interest() == old(Interest())[ch.fd := events]
    {
      ch.events := events;
      UpdateChannel(ch);
    }

    method EnableReading(ch: Channel)
      requires Valid() && Known(ch) && Synced()
      modifies this, ch`events, ch`index
      ensures Valid() && Known(ch) && Synced() && ch.events == old(ch.events) | READ
      ensures Interest() == old(Interest())[ch.fd := old(ch.events) | READ]
    {
      SetEvents(ch, ch.events | READ);
    }

    method EnableWriting(ch: Channel)
      requires Valid() && Known(ch) && Synced()
      modifies this, ch`events, ch`index
      ensures Valid() && Known(ch) && Synced() && ch.IsWriting()
      ensures Interest() == old(Interest())[ch.fd := old(ch.events) | WRITE]
    {
      WritingBit(ch.events);
      SetEvents(ch, ch.events | WRITE);
    }

    method DisableWriting(ch: Channel)
      requires Valid() && Known(ch) && Synced()
      modifies this, ch`events, ch`index
      ensures Valid() && Known(ch) && Synced() && !ch.IsWriting()
      ensures Interest() == old(Interest())[ch.fd := old(ch.events) & !WRITE]
    {
      WritingBit(ch.events);
      SetEvents(ch, ch.events & !WRITE);
    }

    method DisableAll(ch: Channel)
      requires Valid() && Known(ch) && Synced()
      modifies this, ch`events, ch`index
      ensures Valid() && Known(ch) && Synced() && ch.IsNoneEvent()
      ensures Interest() == old(Interest())[ch.fd := NONE]
    {
      SetEvents(ch, NONE);
    }

    /** The registry the poller stands for. */
    ghost function View(): (m: Registry)
      reads this
    {
      Joined(channels, Interest())
    }

    /** A channel carries kNew exactly while it is not registered. */
    ghost predicate Marked(ch: Channel)
      reads this, ch`index
    {
      ch.index != NEW <==> ch.fd in channels && channels[ch.fd] == ch
    }

    method Perform(op: Op)
      requires Valid() && Synced() && Marked(op.ch) && LegalOp(View(), op)
      modifies this, op.ch`events, op.ch`index
      ensures Valid() && Synced() && Marked(op.ch) && View() == Apply(old(View()), op)
      ensures op.ch.fd in old(channels) ==> old(channels)[op.ch.fd] == op.ch
      ensures channels == if op.Set? then old(channels)[op.ch.fd := op.ch] else old(channels) - {op.ch.fd}
    {
      hide Valid, Synced, InForce;
      match op
      case Set(ch, events) =>
        JoinedSteps(channels, Interest(), ch, events);
        assert ch.fd in channels ==> View()[ch.fd].ch == ch;
        SetEvents(ch, events);
      case Remove(ch) =>
        assert View()[ch.fd] == Entry(ch, NONE);
        AsksNothing(ch);
        JoinedSteps(channels, Interest(), ch, NONE);
        RemoveChannel(ch);
    }

    lemma AsksNothing(ch: Channel)
      requires Valid() && Synced() && ch.fd in channels && channels[ch.fd] == ch && Interest()[ch.fd] == NONE
      ensures ch.IsNoneEvent()
    {
    }

    /** Over every legal series of mask changes and removals the poller is the simple map, and each epoll_ctl is legal. */
    method Replay(ops: seq<Op>)
      requires Valid() && Synced() && (forall op :: op in ops ==> Marked(op.ch))
      requires Legal(View(), ops)
      modifies this, set op | op in ops :: op.ch
      ensures Valid() && Synced() && View() == ApplyAll(old(View()), ops)
      decreases |ops|
    {
      hide Valid, Synced, View;
      if ops != [] {
        Perform(ops[0]);
        Replay(ops[1..]);
      }
    }
  }
}
