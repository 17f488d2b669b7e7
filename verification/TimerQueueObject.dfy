/** The TimerQueue class itself: its methods, loops and all, compute the transitions of `TimerQueues`. */
module TimerQueueObjects {
  import opened TimerQueues

  /** What callbacks may do while a batch runs. */
  predicate CallbackOp(op: Op) {
    op.Create? || op.Tick? || op.AddInLoop? || op.CancelInLoop?
  }

  /** The steps of the callbacks of a batch, one list per expired timer. */
  function CallbackTrace(callbacks: seq<seq<Op>>): seq<Op> {
    if callbacks == [] then [] else [RunNext] + callbacks[0] + CallbackTrace(callbacks[1..])
  }

  function HandleReadTrace(now: int, callbacks: seq<seq<Op>>, t: int): seq<Op> {
    [BeginRead(now)] + CallbackTrace(callbacks) + [EndRead(t)]
  }

  class TimerQueue {
    var heap: map<Addr, Timer>
    var timers: seq<Entry>
    var activeTimers: set<TimerId>
    var callingExpiredTimers: bool
    var cancelingTimers: set<TimerId>
    var timerfd: Timerfd
    var clock: int
    var numCreated: nat
    ghost var model: State

    /** The heap and the two indexes are those of `m`. */
    ghost predicate Mirrors(m: State)
      reads this
    {
      heap == m.heap && timers == m.timers && activeTimers == m.active
    }

    ghost predicate Valid()
      reads this
    {
      && Inv(model)
      && Mirrors(model)
      && callingExpiredTimers == model.calling && cancelingTimers == model.canceling
      && timerfd == model.fd && clock == model.clock && numCreated == model.numCreated
    }

    constructor (now: int)
      requires 0 < now
      ensures Valid() && model == Initial(now)
    {
      heap, timers, activeTimers := map[], [], {};
      callingExpiredTimers, cancelingTimers := false, {};
      timerfd, clock, numCreated := Disarmed, now, 0;
      model := Initial(now);
    }

    method CreateTimer(addr: Addr, when: int, repeat: bool, interval: nat) returns (id: TimerId)
      requires Valid() && addr !in heap
      modifies this
      ensures Valid() && model == Step(old(model), Create(addr, when, repeat, interval))
      ensures id == IdOf(model, addr) && heap == old(heap)[addr := Timer(when, repeat, interval, id.sequence)]
    {
      model := Step(model, Create(addr, when, repeat, interval));
      numCreated := numCreated + 1;
      heap := heap[addr := Timer(when, repeat, interval, numCreated)];
      id := TimerId(addr, numCreated);
    }

    method Advance(t: int)
      requires Valid() && clock <= t
      modifies this
      ensures Valid() && model == Step(old(model), Tick(t))
    {
      model := Step(model, Tick(t));
      clock := t;
      if timerfd.Armed? && timerfd.deadline <= t {
        timerfd := Fired;
      }
    }

    /** Inserts into both indexes and reports whether the earliest expiration changed. */
    method Insert(a: Addr) returns (earliestChanged: bool)
      requires Indexed(heap, timers, activeTimers) && a in heap && TimerId(a, heap[a].sequence) !in activeTimers
      modifies this`timers, this`activeTimers
      ensures Entry(heap[a].expiration, a) !in old(timers)
      ensures timers == InsertSorted(old(timers), Entry(heap[a].expiration, a))
      ensures activeTimers == old(activeTimers) + {TimerId(a, heap[a].sequence)}
      ensures earliestChanged == old(timers == [] || heap[a].expiration < timers[0].when)
    {
      earliestChanged := false;
      var when := heap[a].expiration;
      if |timers| == 0 || when < timers[0].when {
        earliestChanged := true;
      }
      timers := InsertSorted(timers, Entry(when, a));
      activeTimers := activeTimers + {TimerId(a, heap[a].sequence)};
    }

    method AddTimerInLoop(a: Addr, t: int)
      requires Valid() && Legal(model, AddInLoop(a, t))
      modifies this
      ensures Valid() && model == Step(old(model), AddInLoop(a, t))
    {
      hide Inv, Step, Sorted, Indexed, InsertSorted, ResetTimerfd;
      AddFields(model, a, t);
      var earliestChanged := Insert(a);
      clock := t;
      if earliestChanged {
        timerfd := ResetTimerfd(heap[a].expiration, t);
      }
      model := Step(model, AddInLoop(a, t));
    }

    method CancelInLoop(id: TimerId)
      requires Valid()
      modifies this
      ensures Valid() && model == Step(old(model), Op.CancelInLoop(id))
    {
      hide Inv, Step, Sorted;
      CancelFields(model, id);
      if id in activeTimers {
        timers := Erase(timers, Entry(heap[id.addr].expiration, id.addr));
        activeTimers := activeTimers - {id};
        heap := heap - {id.addr};
      } else if callingExpiredTimers {
        cancelingTimers := cancelingTimers + {id};
      }
      model := Step(model, Op.CancelInLoop(id));
    }

    /** Moves the due timers out of both indexes, erasing them from the second one by one. */
    method GetExpired(now: int) returns (expired: seq<Entry>)
      requires IndexInv(model) && Mirrors(model)
      modifies this`timers, this`activeTimers
      ensures expired == TimerQueues.GetExpired(model, now).1
      ensures Mirrors(TimerQueues.GetExpired(model, now).0)
    {
      var n := DueCount(timers, now);
      expired := timers[..n];
      timers := timers[n..];
      var i := 0;
      assert activeTimers - IdsOf(model, expired[..0]) == activeTimers;
      while i < |expired|
        invariant 0 <= i <= |expired|
        invariant expired == model.timers[..n] && timers == model.timers[n..]
        invariant activeTimers == model.active - IdsOf(model, model.timers[..i])
      {
        assert expired[i] == model.timers[i];
        IdsOfExtend(model, i);
        activeTimers := activeTimers - {TimerId(expired[i].addr, heap[expired[i].addr].sequence)};
        i := i + 1;
      }
    }

    /** One round of the loop in reset, on the first timer of the batch of `m`. */
    method ResetStep(a: Addr, now: int, ghost m: State)
      requires Inv(m) && m.batch != [] && m.batch[0].addr == a && m.now == now
      requires Mirrors(m) && cancelingTimers == m.canceling
      modifies this`heap, this`timers, this`activeTimers
      ensures Mirrors(ResetOne(m))
    {
      hide Indexed, BatchInv, PartitionInv, FdInv, LogInv;
      BatchHead(m);
      NotQueuedAt(m, a);
      var timer := heap[a];
      if timer.repeat && TimerId(a, timer.sequence) !in cancelingTimers {
        heap := heap[a := timer.(expiration := now + timer.interval)];
        timers := InsertSorted(timers, Entry(heap[a].expiration, a));
        activeTimers := activeTimers + {TimerId(a, timer.sequence)};
      } else {
        heap := heap - {a};
      }
    }

    /** Restarts or deletes every timer of the batch. */
    method ResetTimers(expired: seq<Entry>, now: int)
      requires Inv(model) && model.calling && model.batch == expired && model.now == now
      requires Mirrors(model) && cancelingTimers == model.canceling
      modifies this`heap, this`timers, this`activeTimers
      ensures Mirrors(ResetAll(model))
    {
      hide Indexed, BatchInv, PartitionInv, FdInv, LogInv;
      ghost var m := model;
      var i := 0;
      while i < |expired|
        invariant 0 <= i <= |expired|
        invariant Inv(m) && m.calling && m.batch == expired[i..] && m.now == now && m.canceling == cancelingTimers
        invariant Mirrors(m) && ResetAll(m) == ResetAll(model)
      {
        ResetStep(expired[i].addr, now, m);
        ResetOneInv(m);
        m := ResetOne(m);
        i := i + 1;
      }
    }

    /** reset: the loop, then rearming for the earliest timer left. */
    method Reset(expired: seq<Entry>, now: int, t: int)
      requires Valid() && Legal(model, EndRead(t)) && model.batch == expired && model.now == now
      modifies this
      ensures Valid() && model == Step(old(model), EndRead(t))
    {
      hide Inv, Step, ResetAll;
      EndReadFields(model, t);
      callingExpiredTimers := false;
      ResetTimers(expired, now);
      clock := t;
      model := Step(model, EndRead(t));
      if |timers| != 0 {
        var nextExpire := heap[timers[0].addr].expiration;
        if 0 < nextExpire {
          timerfd := ResetTimerfd(nextExpire, t);
        }
      }
    }

    method Perform(op: Op)
      requires Valid() && Legal(model, op) && CallbackOp(op)
      modifies this
      ensures Valid() && model == Step(old(model), op)
    {
      match op
      case Create(addr, when, repeat, interval) => var _ := CreateTimer(addr, when, repeat, interval);
      case Tick(t) => Advance(t);
      case AddInLoop(a, t) => AddTimerInLoop(a, t);
      case CancelInLoop(id) => CancelInLoop(id);
    }

    /** The first half of handleRead. */
    method BeginBatch(now: int) returns (expired: seq<Entry>)
      requires Valid() && Legal(model, BeginRead(now))
      modifies this
      ensures Valid() && model == Step(old(model), BeginRead(now))
      ensures expired == model.batch && |expired| == DueCount(old(timers), now)
    {
      hide Inv, Step, Sorted, Indexed, TimerQueues.GetExpired;
      StartFields(model, now);
      expired := GetExpired(now);
      clock := now;
      if timerfd.Fired? {
        timerfd := Disarmed;
      }
      callingExpiredTimers := true;
      cancelingTimers := {};
      model := Step(model, BeginRead(now));
    }

    /**
     * The timerfd callback: collect the due timers, run their callbacks (each an arbitrary list of re-entrant calls),
     * then settle the batch.
     */
    method HandleRead(now: int, callbacks: seq<seq<Op>>, t: int)
      requires Valid() && |callbacks| == DueCount(timers, now)
      requires forall i, op :: 0 <= i < |callbacks| && op in callbacks[i] ==> CallbackOp(op)
      requires LegalRun(model, HandleReadTrace(now, callbacks, t))
      modifies this
      ensures Valid() && model == Exec(old(model), HandleReadTrace(now, callbacks, t))
    {
      hide Inv;
      ghost var rest := CallbackTrace(callbacks) + [EndRead(t)];
      assert HandleReadTrace(now, callbacks, t)[1..] == rest;
      var expired := BeginBatch(now);
      RunCallbacks(expired, callbacks, [EndRead(t)]);
      Reset(expired, now, t);
    }

    /** The loop of handleRead over the expired timers. */
    method RunCallbacks(expired: seq<Entry>, callbacks: seq<seq<Op>>, ghost tail: seq<Op>)
      requires Valid() && model.calling && model.batch == expired && model.ran == 0 && |callbacks| == |expired|
      requires forall i, op :: 0 <= i < |callbacks| && op in callbacks[i] ==> CallbackOp(op)
      requires LegalRun(model, CallbackTrace(callbacks) + tail)
      modifies this
      ensures Valid() && LegalRun(model, tail) && Exec(model, tail) == Exec(old(model), CallbackTrace(callbacks) + tail)
      ensures model.calling && model.batch == expired && model.ran == |expired| && model.now == old(model.now)
    {
      hide Inv;
      ghost var rest := CallbackTrace(callbacks) + tail;
      var i := 0;
      while i < |expired|
        invariant 0 <= i <= |expired|
        invariant Valid() && model.calling && model.batch == expired && model.ran == i && model.now == old(model.now)
        invariant rest == CallbackTrace(callbacks[i..]) + tail
        invariant LegalRun(model, rest) && Exec(model, rest) == Exec(old(model), CallbackTrace(callbacks) + tail)
      {
        TraceUnfold(callbacks[i..], tail);
        assert rest[0] == RunNext;
        model, rest := Step(model, RunNext), rest[1..];
        RunCallback(callbacks[i], rest);
        rest := rest[|callbacks[i]|..];
        i := i + 1;
      }
      assert rest == tail;
    }

    method RunCallback(ops: seq<Op>, ghost rest: seq<Op>)
      requires Valid() && model.calling && ops <= rest && LegalRun(model, rest)
      requires forall op :: op in ops ==> CallbackOp(op)
      modifies this
      ensures Valid() && LegalRun(model, rest[|ops|..]) && Exec(model, rest[|ops|..]) == Exec(old(model), rest)
      ensures model.calling && model.batch == old(model.batch) && model.ran == old(model.ran) && model.now == old(model.now)
    {
      hide Inv;
      var j := 0;
      while j < |ops|
        invariant 0 <= j <= |ops|
        invariant Valid() && LegalRun(model, rest[j..]) && Exec(model, rest[j..]) == Exec(old(model), rest)
        invariant model.calling && model.batch == old(model.batch) && model.ran == old(model.ran) && model.now == old(model.now)
      {
        assert rest[j..][0] == ops[j] && rest[j..][1..] == rest[j + 1..];
        Perform(ops[j]);
        j := j + 1;
      }
    }
  }

  lemma TraceUnfold(callbacks: seq<seq<Op>>, tail: seq<Op>)
    requires callbacks != []
    ensures var rest := CallbackTrace(callbacks) + tail;
            && rest[0] == RunNext && callbacks[0] <= rest[1..]
            && rest[1..][|callbacks[0]|..] == CallbackTrace(callbacks[1..]) + tail
  {
    var c, d := callbacks[0], CallbackTrace(callbacks[1..]) + tail;
    assert CallbackTrace(callbacks) == [RunNext] + c + CallbackTrace(callbacks[1..]);
    var rest := CallbackTrace(callbacks) + tail;
    assert rest == [RunNext] + (c + d);
    assert rest[1..] == c + d;
  }

  lemma AddFields(s: State, a: Addr, t: int)
    requires Inv(s) && Legal(s, AddInLoop(a, t))
    ensures IndexInv(s) && IdOf(s, a) !in s.active && EntryOf(s, a) !in s.timers && Sorted(s.timers)
    ensures var r := Step(s, AddInLoop(a, t));
            && r.heap == s.heap && r.timers == InsertSorted(s.timers, EntryOf(s, a)) && r.active == s.active + {IdOf(s, a)}
            && r.calling == s.calling && r.canceling == s.canceling && r.clock == t && r.numCreated == s.numCreated
            && r.fd == if EarliestChanged(s, a) then ResetTimerfd(s.heap[a].expiration, t) else s.fd
  {
    assert HomeInv(s, a);
  }

  lemma StartFields(s: State, now: int)
    requires Inv(s) && Legal(s, BeginRead(now))
    ensures IndexInv(s) && Sorted(s.timers)
    ensures var (q, expired) := TimerQueues.GetExpired(s, now);
            var r := Step(s, BeginRead(now));
            && r.heap == q.heap && r.timers == q.timers && r.active == q.active && r.batch == expired
            && |expired| == DueCount(s.timers, now)
            && r.calling && r.canceling == {} && r.clock == now && r.numCreated == s.numCreated
            && r.fd == if s.fd.Fired? then Disarmed else s.fd
  {
  }

  lemma CancelFields(s: State, id: TimerId)
    requires Inv(s)
    ensures id in s.active ==> id.addr in s.heap && Sorted(s.timers) && EntryOf(s, id.addr) in s.timers
    ensures var r := Step(s, Op.CancelInLoop(id));
            && r.calling == s.calling && r.fd == s.fd && r.clock == s.clock && r.numCreated == s.numCreated
            && (if id in s.active then
                  && r.heap == s.heap - {id.addr} && r.timers == Erase(s.timers, EntryOf(s, id.addr))
                  && r.active == s.active - {id} && r.canceling == s.canceling
                else
                  && r.heap == s.heap && r.timers == s.timers && r.active == s.active
                  && r.canceling == if s.calling then s.canceling + {id} else s.canceling)
  {
  }

  lemma {:induction false} ResetFrame(s: State)
    requires Inv(s) && s.calling
    ensures ResetAll(s).canceling == s.canceling && ResetAll(s).numCreated == s.numCreated && ResetAll(s).fd == s.fd
    decreases |s.batch|
  {
    if s.batch != [] {
      ResetOneInv(s);
      ResetFrame(ResetOne(s));
    }
  }

  lemma EndReadFields(s: State, t: int)
    requires Inv(s) && Legal(s, EndRead(t))
    ensures var q, r := ResetAll(s), Step(s, EndRead(t));
            && r.heap == q.heap && r.timers == q.timers && r.active == q.active
            && !r.calling && r.canceling == s.canceling && r.numCreated == s.numCreated && r.clock == t
            && (q.timers == [] ==> r.fd == s.fd)
            && (q.timers != [] ==>
                 var next := q.timers[0].addr;
                 && next in q.heap
                 && r.fd == if 0 < q.heap[next].expiration then ResetTimerfd(q.heap[next].expiration, t) else s.fd)
  {
    ResetFrame(s);
    var q := ResetAll(s);
    assert q.timers != [] ==> q.timers[0] in q.timers;
  }
}
