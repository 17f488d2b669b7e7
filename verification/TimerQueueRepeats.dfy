/** From the arguments of a new timer to its later batches, and from the queue to the kernel timer. */
module TimerQueueRepeats {
  import opened TimerQueues
  import opened TimerQueueRuns

  // ----- a timer is what its creator asked for -----

  /** A new timer has exactly the time, the flag and the interval it was asked for, and nothing else changes. */
  lemma CreatedAsAsked(s: State, addr: Addr, when: int, repeat: bool, interval: nat)
    requires Inv(s) && addr !in s.heap
    ensures var r := Step(s, Create(addr, when, repeat, interval));
            && r.heap.Keys == s.heap.Keys + {addr} && (forall a :: a in s.heap ==> r.heap[a] == s.heap[a])
            && r.heap[addr].expiration == when && r.heap[addr].repeat == repeat && r.heap[addr].interval == interval
            && r.heap[addr].sequence !in s.home && r.home == s.home[r.heap[addr].sequence := addr]
            && r.timers == s.timers && r.active == s.active && r.batch == s.batch && r.fd == s.fd
  {
  }

  /** Two states agree on whether and how often the timer at `a` repeats. */
  predicate SamePlan(s: State, r: State, a: Addr)
    requires a in s.heap && a in r.heap
  {
    r.heap[a].repeat == s.heap[a].repeat && r.heap[a].interval == s.heap[a].interval
  }

  lemma {:induction false} ResetKeepsPlan(s: State, a: Addr)
    requires Inv(s) && s.calling && a in s.heap && a in ResetAll(s).heap
    ensures SamePlan(s, ResetAll(s), a) && ResetAll(s).heap[a].sequence == s.heap[a].sequence
    decreases |s.batch|
  {
    if s.batch != [] {
      ResetOneInv(s);
      ResetKeepsOthers(s);
      ResetKeepsOthers(ResetOne(s));
      ResetOneOthers(s);
      BatchHead(s);
      ResetKeepsPlan(ResetOne(s), a);
    }
  }

  lemma StepKeepsPlan(s: State, op: Op, a: Addr)
    requires Inv(s) && Legal(s, op) && a in s.heap && a in Step(s, op).heap
    ensures SamePlan(s, Step(s, op), a) && Step(s, op).heap[a].sequence == s.heap[a].sequence
  {
    hide Indexed, BatchInv, PartitionInv, FdInv, LogInv, Sorted;
    if op.EndRead? {
      EndKeepsPlan(s, op.t, a);
    }
  }

  lemma EndKeepsPlan(s: State, t: int, a: Addr)
    requires Inv(s) && Legal(s, EndRead(t)) && a in s.heap && a in Step(s, EndRead(t)).heap
    ensures SamePlan(s, Step(s, EndRead(t)), a) && Step(s, EndRead(t)).heap[a].sequence == s.heap[a].sequence
  {
    assert Step(s, EndRead(t)).heap == ResetAll(s).heap;
    ResetKeepsPlan(s, a);
  }

  /** In every continuation a timer that is still there repeats as it did. */
  lemma {:induction false} PlanKept(s: State, ops: seq<Op>, a: Addr)
    requires Inv(s) && LegalRun(s, ops) && a in s.heap
    requires a in Exec(s, ops).heap && Exec(s, ops).heap[a].sequence == s.heap[a].sequence
    ensures SamePlan(s, Exec(s, ops), a)
    decreases |ops|
  {
    if ops != [] {
      var q, r := s.heap[a].sequence, Step(s, ops[0]);
      StillThere(s, ops, a);
      StepKeepsPlan(s, ops[0], a);
      PlanKept(r, ops[1..], a);
    }
  }

  /** A timer that is there at the end was there after the first step. */
  lemma StillThere(s: State, ops: seq<Op>, a: Addr)
    requires Inv(s) && LegalRun(s, ops) && ops != [] && a in s.heap
    requires a in Exec(s, ops).heap && Exec(s, ops).heap[a].sequence == s.heap[a].sequence
    ensures a in Step(s, ops[0]).heap
  {
    var q, r := s.heap[a].sequence, Step(s, ops[0]);
    assert HomeInv(s, a);
    StepOlder(s, ops[0]);
    RunOlder(r, ops[1..]);
    LiveIff(r, q);
    LiveIff(Exec(s, ops), q);
  }

  // ----- a repeating timer comes back after every batch -----

  /** The timer at `a` is in the running batch, unchanged and not cancelled. */
  ghost predicate Pending(s: State, a: Addr, timer: Timer) {
    && s.calling && a in s.heap && s.heap[a] == timer && InBatch(s, a)
    && IdOf(s, a) !in s.canceling
  }

  lemma StepPending(s: State, op: Op, a: Addr, timer: Timer)
    requires Inv(s) && Legal(s, op) && Pending(s, a, timer)
    requires !op.EndRead? && op != CancelInLoop(TimerId(a, timer.sequence))
    ensures Pending(Step(s, op), a, timer) && Step(s, op).now == s.now
  {
    hide PartitionInv, FdInv, LogInv, Sorted;
    NotQueuedAt(s, a);
  }

  lemma {:induction false} RunPending(s: State, ops: seq<Op>, a: Addr, timer: Timer)
    requires Inv(s) && LegalRun(s, ops) && Pending(s, a, timer)
    requires forall op :: op in ops ==> !op.EndRead? && op != CancelInLoop(TimerId(a, timer.sequence))
    ensures Pending(Exec(s, ops), a, timer) && Exec(s, ops).now == s.now
    decreases |ops|
  {
    hide Inv, Step, Legal, Pending;
    if ops != [] {
      assert ops[0] in ops && forall op :: op in ops[1..] ==> op in ops;
      StepPending(s, ops[0], a, timer);
      RunPending(Step(s, ops[0]), ops[1..], a, timer);
    }
  }

  lemma BeginPending(s: State, now: int, a: Addr)
    requires Inv(s) && Legal(s, BeginRead(now)) && a in s.heap && Queued(s, a) && s.heap[a].expiration <= now
    ensures Pending(Step(s, BeginRead(now)), a, s.heap[a]) && Step(s, BeginRead(now)).now == now
  {
    hide PartitionInv, FdInv, LogInv, Indexed, DueCount, IdsOf;
    GetExpiredExact(s, now);
  }

  lemma EndPending(s: State, t: int, a: Addr, timer: Timer)
    requires Inv(s) && Legal(s, EndRead(t)) && Pending(s, a, timer) && timer.repeat
    ensures var r := Step(s, EndRead(t));
            a in r.heap && r.heap[a] == timer.(expiration := s.now + timer.interval) && Queued(r, a)
  {
    BatchOutcome(s, t);
    assert EntryOf(s, a) in s.batch;
  }

  /**
   * A queued timer that repeats and is due is called in the batch and queued again at now + interval at its end, unless a
   * callback of that batch cancels it.
   */
  lemma RepeatsUnlessCancelled(s: State, now: int, mid: seq<Op>, t: int, a: Addr)
    requires Inv(s) && Legal(s, BeginRead(now)) && LegalRun(Step(s, BeginRead(now)), mid)
    requires Legal(Exec(Step(s, BeginRead(now)), mid), EndRead(t))
    requires a in s.heap && Queued(s, a) && s.heap[a].repeat && s.heap[a].expiration <= now
    requires forall op :: op in mid ==> !op.EndRead? && op != CancelInLoop(IdOf(s, a))
    ensures var r := Step(Exec(Step(s, BeginRead(now)), mid), EndRead(t));
            a in r.heap && r.heap[a] == s.heap[a].(expiration := now + s.heap[a].interval) && Queued(r, a)
  {
    hide Inv, Step, Legal, Pending, Exec, LegalRun;
    BeginPending(s, now, a);
    var b := Step(s, BeginRead(now));
    RunPending(b, mid, a, s.heap[a]);
    EndPending(Exec(b, mid), t, a, s.heap[a]);
  }

  /**
   * So a timer created to repeat comes back at the end of every batch it is due in and not cancelled in, by the interval
   * it was created with, however long ago that was.
   */
  lemma CreatedToRepeat(s0: State, addr: Addr, when: int, interval: nat, ops: seq<Op>, now: int, mid: seq<Op>, t: int)
    requires Inv(s0) && addr !in s0.heap
    requires LegalRun(Step(s0, Create(addr, when, true, interval)), ops)
    requires var c := Step(s0, Create(addr, when, true, interval));
             var s := Exec(c, ops);
             && addr in s.heap && s.heap[addr].sequence == s0.numCreated + 1
             && Queued(s, addr) && s.heap[addr].expiration <= now && Legal(s, BeginRead(now))
             && LegalRun(Step(s, BeginRead(now)), mid) && Legal(Exec(Step(s, BeginRead(now)), mid), EndRead(t))
             && forall op :: op in mid ==> !op.EndRead? && op != CancelInLoop(TimerId(addr, s0.numCreated + 1))
    ensures var s := Exec(Step(s0, Create(addr, when, true, interval)), ops);
            var r := Step(Exec(Step(s, BeginRead(now)), mid), EndRead(t));
            addr in r.heap && r.heap[addr] == Timer(now + interval, true, interval, s0.numCreated + 1) && Queued(r, addr)
  {
    CreatedAsAsked(s0, addr, when, true, interval);
    var c := Step(s0, Create(addr, when, true, interval));
    assert c.heap[addr].sequence == s0.numCreated + 1;
    PlanKept(c, ops, addr);
    hide Inv, Step, Legal, Exec, LegalRun;
    RepeatsUnlessCancelled(Exec(c, ops), now, mid, t, addr);
  }

  /** Cancelling a timer that is not queued is noted while callbacks run, and does nothing otherwise. */
  lemma CancelElsewhere(s: State, id: TimerId)
    requires Inv(s) && id !in s.active
    ensures Step(s, CancelInLoop(id)) == if s.calling then s.(canceling := s.canceling + {id}) else s
  {
  }

  // ----- the kernel timer -----

  /** Adding arms the timerfd for the new timer exactly when it is earlier than all that are queued. */
  lemma AddArms(s: State, a: Addr, t: int)
    requires Inv(s) && Legal(s, AddInLoop(a, t))
    ensures var r, when := Step(s, AddInLoop(a, t)), s.heap[a].expiration;
            && Queued(r, a) && r.heap == s.heap && (forall e :: e in r.timers <==> e in s.timers || e == EntryOf(s, a))
            && r.fd == if forall e :: e in s.timers ==> when < e.when then Armed(Max(when, t + 100), t) else s.fd
  {
    ResetTimerfdDeadline(s.heap[a].expiration, t);
    HeadIsEarliest(s.timers);
    assert s.timers != [] ==> s.timers[0] in s.timers;
  }

  lemma HeadIsEarliest(timers: seq<Entry>)
    requires Sorted(timers)
    ensures forall e :: e in timers ==> timers[0].when <= e.when
  {
    forall e | e in timers ensures timers[0].when <= e.when {
      var i :| 0 <= i < |timers| && timers[i] == e;
      assert i == 0 || Less(timers[0], e);
    }
  }

  /** Reading empties a fired timerfd, and the end of a batch arms it for the earliest valid timer. */
  lemma BatchArms(s: State, now: int)
    requires Inv(s) && Legal(s, BeginRead(now))
    ensures Step(s, BeginRead(now)).fd == if s.fd.Fired? then Disarmed else s.fd
  {
  }

  lemma EndArms(s: State, t: int)
    requires Inv(s) && Legal(s, EndRead(t))
    ensures var r := Step(s, EndRead(t));
            && !r.calling && r.clock == t
            && (r.timers != [] && 0 < r.timers[0].when ==> r.fd == Armed(Max(r.timers[0].when, t + 100), t))
  {
    var q := ResetAll(s);
    if q.timers != [] {
      ResetTimerfdDeadline(q.timers[0].when, t);
    }
  }

  /** Time that reaches an armed deadline makes the timerfd readable, and no earlier time does. */
  lemma DeadlineFires(s: State, t: int)
    requires Inv(s) && Legal(s, Tick(t))
    ensures var r := Step(s, Tick(t));
            && r.clock == t && r.timers == s.timers && r.heap == s.heap
            && (r.fd.Fired? <==> s.fd.Fired? || (s.fd.Armed? && s.fd.deadline <= t))
            && (!r.fd.Fired? ==> r.fd == s.fd)
  {
  }

  /** Hence outside handleRead the timerfd is readable from the later of a timer's expiration and 100 µs after arming on. */
  lemma DueTimerIsNoticed(s: State, t: int, e: Entry)
    requires Inv(s) && !s.calling && Legal(s, Tick(t)) && e in s.timers
    requires e.when <= t && (s.fd.Armed? ==> s.fd.at + 100 <= t)
    ensures Step(s, Tick(t)).fd.Fired?
  {
    InvArmedInTime(s);
    DeadlineFires(s, t);
  }
}
