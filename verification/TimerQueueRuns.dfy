/** What the invariant of the timer scheduler means over whole runs, for every interleaving of callbacks. */
module TimerQueueRuns {
  import opened TimerQueues

  /** The timer created with sequence number `q` is still allocated. */
  predicate Live(s: State, q: nat) {
    q in s.home && s.home[q] in s.heap && s.heap[s.home[q]].sequence == q
  }

  function Count(b: bool): nat {
    if b then 1 else 0
  }

  /** The two indexes hold the same timers, and every timer ever inserted is in exactly one place. */
  ghost predicate Partitioned(s: State) {
    && |s.timers| == |s.active|
    && (forall a :: a in s.heap ==> (EntryOf(s, a) in s.timers <==> IdOf(s, a) in s.active))
    && (forall q :: q in s.inserted ==>
         Count(q in s.deleted) + Count(Live(s, q) && Queued(s, s.home[q])) + Count(Live(s, q) && InBatch(s, s.home[q])) == 1)
  }

  /** Outside handleRead a non-empty queue has its timerfd fired and unread, or armed in time for the earliest timer. */
  ghost predicate ArmedInTime(s: State) {
    !s.calling && s.timers != [] && !s.fd.Fired? ==>
      && s.fd.Armed? && s.fd.at <= s.clock
      && forall e :: e in s.timers ==> s.fd.deadline <= Max(e.when, s.fd.at + 100)
  }

  /** No callback ever ran before its timer was due. */
  ghost predicate NeverEarly(s: State) {
    forall i :: 0 <= i < |s.log| ==> s.log[i].due <= s.log[i].at
  }

  lemma InvPartitioned(s: State)
    requires Inv(s)
    ensures Partitioned(s)
  {
    forall q | q in s.inserted
      ensures Count(q in s.deleted) + Count(Live(s, q) && Queued(s, s.home[q])) + Count(Live(s, q) && InBatch(s, s.home[q])) == 1
    {
      if Live(s, q) {
        assert HomeInv(s, s.home[q]);
      }
    }
  }

  lemma InvArmedInTime(s: State)
    requires Inv(s)
    ensures ArmedInTime(s)
  {
    forall e | e in s.timers ensures s.timers[0].when <= e.when {
      var i :| 0 <= i < |s.timers| && s.timers[i] == e;
      assert i == 0 || Less(s.timers[0], e);
    }
  }

  /** Every reachable state, inside callbacks that add or cancel mid-batch too. */
  lemma ReachableStatesAreSafe(clock: int, ops: seq<Op>)
    requires 0 < clock && LegalRun(Initial(clock), ops)
    ensures var s := Exec(Initial(clock), ops); Partitioned(s) && ArmedInTime(s) && NeverEarly(s)
  {
    var s := Exec(Initial(clock), ops);
    InvPartitioned(s);
    InvArmedInTime(s);
  }

  // ----- one step, seen through the history -----

  /** What a step of reset leaves alone. */
  ghost predicate Older(s: State, r: State) {
    && s.log <= r.log
    && (forall q :: q in s.deleted ==> q in r.deleted)
    && (forall q :: q in s.home ==> q in r.home && r.home[q] == s.home[q])
  }

  lemma {:induction false} ResetOlder(s: State)
    requires Inv(s) && s.calling
    ensures Older(s, ResetAll(s)) && ResetAll(s).log == s.log
    decreases |s.batch|
  {
    if s.batch != [] {
      ResetOneInv(s);
      ResetOlder(ResetOne(s));
    }
  }

  lemma EndOlder(s: State, t: int)
    requires Inv(s) && Legal(s, EndRead(t))
    ensures Older(s, Step(s, EndRead(t))) && Step(s, EndRead(t)).log == s.log
  {
    ResetOlder(s);
    var q, r := ResetAll(s), EndBatch(s, t);
    assert r.log == q.log && r.deleted == q.deleted && r.home == q.home;
  }

  lemma NextIsNew(s: State)
    requires Inv(s)
    ensures s.numCreated + 1 !in s.home
  {
  }

  lemma StepOlder(s: State, op: Op)
    requires Inv(s) && Legal(s, op)
    ensures Older(s, Step(s, op))
    ensures op != RunNext ==> Step(s, op).log == s.log
    ensures op == RunNext ==> Step(s, op) == RunTimer(s)
  {
    hide Indexed, BatchInv, PartitionInv, FdInv, LogInv, Sorted;
    NextIsNew(s);
    if op.EndRead? {
      EndOlder(s, op.t);
    }
  }

  /** A callback only ever runs for a timer that is not deleted and belongs to the current batch. */
  lemma RunIsAlive(s: State)
    requires Inv(s) && s.calling && s.ran < |s.batch|
    ensures var run := RunTimer(s).log[|s.log|]; run.sequence !in s.deleted && run.batch == s.batchNo && Live(s, run.sequence)
  {
    assert s.batch[s.ran] in s.batch;
    assert HomeInv(s, s.batch[s.ran].addr);
  }

  lemma {:induction false} RunOlder(s: State, ops: seq<Op>)
    requires Inv(s) && LegalRun(s, ops)
    ensures Older(s, Exec(s, ops))
    decreases |ops|
  {
    if ops != [] {
      StepOlder(s, ops[0]);
      RunOlder(Step(s, ops[0]), ops[1..]);
    }
  }

  lemma DeletedIsNotLive(s: State, q: nat)
    requires Inv(s) && q in s.deleted
    ensures !Live(s, q)
  {
    assert forall a :: a in s.heap ==> HomeInv(s, a);
  }

  // ----- each timer is deleted once -----

  ghost predicate Distinct(qs: seq<nat>) {
    forall i, j :: 0 <= i < j < |qs| ==> qs[i] != qs[j]
  }

  /** The deletions on record are those of the deleted timers, one each. */
  ghost predicate FreedOnce(s: State) {
    Distinct(s.frees) && forall q :: q in s.frees <==> q in s.deleted
  }

  /** Between two states only timers that were not deleted before are deleted. */
  ghost predicate FreesNew(s: State, r: State) {
    && s.frees <= r.frees && (forall i :: |s.frees| <= i < |r.frees| ==> r.frees[i] !in s.deleted)
    && (forall q :: q in s.deleted ==> q in r.deleted)
    && (FreedOnce(s) ==> FreedOnce(r))
  }

  lemma FreesNewThen(s: State, r: State, t: State)
    requires FreesNew(s, r) && FreesNew(r, t)
    ensures FreesNew(s, t)
  {
    forall i | |s.frees| <= i < |t.frees| ensures t.frees[i] !in s.deleted {
      if i < |r.frees| {
        assert t.frees[i] == r.frees[i];
      }
    }
  }

  lemma DeleteFreesNew(s: State, a: Addr)
    requires a in s.heap && s.heap[a].sequence !in s.deleted
    ensures FreesNew(s, Delete(s, a))
  {
  }

  lemma CancelFrees(s: State, id: TimerId)
    requires Inv(s)
    ensures FreesNew(s, Cancel(s, id))
  {
    if id in s.active {
      assert HomeInv(s, id.addr);
      DeleteFreesNew(s, id.addr);
    }
  }

  lemma ResetOneFrees(s: State)
    requires Inv(s) && s.batch != []
    ensures FreesNew(s, ResetOne(s))
  {
    BatchHead(s);
    var a := s.batch[0].addr;
    assert HomeInv(s, a);
    if !(s.heap[a].repeat && IdOf(s, a) !in s.canceling) {
      DeleteFreesNew(s, a);
    }
  }

  lemma {:induction false} ResetFrees(s: State)
    requires Inv(s) && s.calling
    ensures FreesNew(s, ResetAll(s))
    decreases |s.batch|
  {
    hide FreesNew;
    if s.batch == [] {
      FreesNothing(s, s);
    } else {
      ResetOneInv(s);
      ResetOneFrees(s);
      ResetFrees(ResetOne(s));
      FreesNewThen(s, ResetOne(s), ResetAll(s));
    }
  }

  lemma FreesNothing(s: State, r: State)
    requires r.frees == s.frees && r.deleted == s.deleted
    ensures FreesNew(s, r)
  {
  }

  lemma StepFrees(s: State, op: Op)
    requires Inv(s) && Legal(s, op)
    ensures FreesNew(s, Step(s, op))
  {
    hide FreesNew, Inv;
    if op.CancelInLoop? {
      CancelFrees(s, op.id);
    } else if op.EndRead? {
      ResetFrees(s);
      FreesNothing(ResetAll(s), Step(s, op));
      FreesNewThen(s, ResetAll(s), Step(s, op));
    } else {
      FreesNothing(s, Step(s, op));
    }
  }

  lemma {:induction false} RunFrees(s: State, ops: seq<Op>)
    requires Inv(s) && LegalRun(s, ops)
    ensures FreesNew(s, Exec(s, ops))
    decreases |ops|
  {
    hide FreesNew, Inv, Step, Legal;
    if ops == [] {
      FreesNothing(s, s);
    } else {
      StepFrees(s, ops[0]);
      RunFrees(Step(s, ops[0]), ops[1..]);
      FreesNewThen(s, Step(s, ops[0]), Exec(s, ops));
    }
  }

  /** On every run no timer is deleted twice. */
  lemma DeletedAtMostOnce(clock: int, ops: seq<Op>)
    requires 0 < clock && LegalRun(Initial(clock), ops)
    ensures FreedOnce(Exec(Initial(clock), ops))
  {
    RunFrees(Initial(clock), ops);
  }

  lemma {:induction false} DeletedNeverRuns(s: State, q: nat, ops: seq<Op>)
    requires Inv(s) && LegalRun(s, ops) && q in s.deleted
    ensures var r := Exec(s, ops);
            s.log <= r.log && (forall i :: |s.log| <= i < |r.log| ==> r.log[i].sequence != q)
    decreases |ops|
  {
    hide Inv;
    if ops != [] {
      StepOlder(s, ops[0]);
      if ops[0] == RunNext {
        RunIsAlive(s);
      }
      DeletedNeverRuns(Step(s, ops[0]), q, ops[1..]);
      RunOlder(s, ops);
    }
  }

  /** A deleted timer never runs again and is never deleted again. */
  lemma DeletedForever(s: State, q: nat, ops: seq<Op>)
    requires Inv(s) && LegalRun(s, ops) && q in s.deleted
    ensures var r := Exec(s, ops);
            && s.log <= r.log && (forall i :: |s.log| <= i < |r.log| ==> r.log[i].sequence != q)
            && s.frees <= r.frees && (forall i :: |s.frees| <= i < |r.frees| ==> r.frees[i] != q)
            && q in r.deleted
  {
    hide Inv;
    DeletedNeverRuns(s, q, ops);
    RunFrees(s, ops);
  }

  /** Cancelling a queued timer: no callback of it follows, in any continuation. */
  lemma CancelQueuedIsFinal(s: State, id: TimerId, ops: seq<Op>)
    requires Inv(s) && id in s.active && LegalRun(Step(s, CancelInLoop(id)), ops)
    ensures var r := Exec(Step(s, CancelInLoop(id)), ops);
            && s.log <= r.log && (forall i :: |s.log| <= i < |r.log| ==> r.log[i].sequence != id.sequence)
            && !Live(r, id.sequence)
  {
    DeletedForever(Step(s, CancelInLoop(id)), id.sequence, ops);
    DeletedIsNotLive(Exec(Step(s, CancelInLoop(id)), ops), id.sequence);
  }

  // ----- cancelling a timer of the running batch -----

  /** The timer is gone, or is in batch `k` with its cancellation recorded. */
  ghost predicate Doomed(s: State, id: TimerId, k: nat) {
    || id.sequence in s.deleted
    || (s.calling && s.batchNo == k && id.addr in s.heap && IdOf(s, id.addr) == id && InBatch(s, id.addr) && id in s.canceling)
  }

  lemma {:induction false} ResetDooms(s: State, id: TimerId)
    requires Inv(s) && s.calling && id.addr in s.heap && IdOf(s, id.addr) == id && InBatch(s, id.addr) && id in s.canceling
    ensures id.sequence in ResetAll(s).deleted
    decreases |s.batch|
  {
    ResetOneInv(s);
    var r := ResetOne(s);
    if s.batch[0].addr == id.addr {
      ResetOlder(r);
    } else {
      BatchHead(s);
      ResetOneOthers(s);
      ResetDooms(r, id);
    }
  }

  lemma StepDoomed(s: State, op: Op, id: TimerId, k: nat)
    requires Inv(s) && Legal(s, op) && Doomed(s, id, k)
    ensures Doomed(Step(s, op), id, k)
  {
    StepOlder(s, op);
    if id.sequence !in s.deleted && op.EndRead? {
      ResetDooms(s, id);
    }
  }

  lemma {:induction false} DoomedRuns(s: State, ops: seq<Op>, id: TimerId, k: nat)
    requires Inv(s) && LegalRun(s, ops) && Doomed(s, id, k)
    ensures var r := Exec(s, ops);
            s.log <= r.log && forall i :: |s.log| <= i < |r.log| && r.log[i].sequence == id.sequence ==> r.log[i].batch == k
    decreases |ops|
  {
    hide Inv, Doomed;
    if ops != [] {
      StepOlder(s, ops[0]);
      StepDoomed(s, ops[0], id, k);
      if ops[0] == RunNext {
        RunIsAlive(s);
      }
      DoomedRuns(Step(s, ops[0]), ops[1..], id, k);
      RunOlder(s, ops);
    }
  }

  /** Cancelling a timer of the current batch: it may still run in this batch, and in no later one. */
  lemma CancelInBatchEndsWithBatch(s: State, id: TimerId, ops: seq<Op>)
    requires Inv(s) && id.addr in s.heap && IdOf(s, id.addr) == id && InBatch(s, id.addr)
    requires LegalRun(Step(s, CancelInLoop(id)), ops)
    ensures var r := Exec(Step(s, CancelInLoop(id)), ops);
            s.log <= r.log && forall i :: |s.log| <= i < |r.log| && r.log[i].sequence == id.sequence ==> r.log[i].batch == s.batchNo
  {
    NotQueuedAt(s, id.addr);
    DoomedRuns(Step(s, CancelInLoop(id)), ops, id, s.batchNo);
  }

  // ----- when a cancellation is final -----

  lemma {:induction false} StaysDoomed(s: State, ops: seq<Op>, id: TimerId, k: nat)
    requires Inv(s) && LegalRun(s, ops) && Doomed(s, id, k)
    ensures Doomed(Exec(s, ops), id, k)
    decreases |ops|
  {
    hide Inv, Step, Legal, Doomed;
    if ops != [] {
      StepDoomed(s, ops[0], id, k);
      StaysDoomed(Step(s, ops[0]), ops[1..], id, k);
    }
  }

  lemma DoomedIsNotQueued(s: State, id: TimerId, k: nat)
    requires Inv(s) && Doomed(s, id, k)
    ensures id !in s.active
  {
    assert forall a :: a in s.heap ==> HomeInv(s, a);
  }

  /** Cancelling dooms a timer that was inserted, wherever it is now. */
  lemma CancelDooms(s: State, id: TimerId)
    requires Inv(s) && id.sequence in s.inserted && s.home[id.sequence] == id.addr
    ensures Doomed(Step(s, CancelInLoop(id)), id, s.batchNo)
  {
    if id.sequence !in s.deleted {
      assert HomeInv(s, id.addr);
      if InBatch(s, id.addr) {
        NotQueuedAt(s, id.addr);
      }
    }
  }

  /** In no continuation is the timer queued. */
  ghost predicate NeverQueued(s: State, id: TimerId)
    requires Inv(s)
  {
    forall ops :: LegalRun(s, ops) ==> id !in Exec(s, ops).active
  }

  lemma AddQueues(s: State, id: TimerId)
    requires Inv(s) && id.sequence in s.home && s.home[id.sequence] == id.addr && id.sequence !in s.inserted
    ensures var ops := [AddInLoop(id.addr, s.clock)]; LegalRun(s, ops) && id in Exec(s, ops).active
  {
    var op := AddInLoop(id.addr, s.clock);
    assert HomeInv(s, id.addr);
    assert LegalRun(Step(s, op), []) && [op][1..] == [];
  }

  /**
   * Cancelling with an id that was handed out is final exactly when the add has reached the loop before it, that is, when
   * the timer is queued, in the batch or gone; a cancel that overtakes the add leaves nothing behind to stop it.
   */
  lemma CancelFinalIff(s: State, id: TimerId)
    requires Inv(s) && id.sequence in s.home && s.home[id.sequence] == id.addr
    ensures NeverQueued(Step(s, CancelInLoop(id)), id) <==> id.sequence in s.inserted
  {
    var r := Step(s, CancelInLoop(id));
    if id.sequence in s.inserted {
      CancelDooms(s, id);
      forall ops | LegalRun(r, ops) ensures id !in Exec(r, ops).active {
        StaysDoomed(r, ops, id, s.batchNo);
        DoomedIsNotQueued(Exec(r, ops), id, s.batchNo);
      }
    } else {
      AddQueues(r, id);
    }
  }

  lemma ExecCons(s: State, op: Op, rest: seq<Op>)
    requires Inv(s) && Legal(s, op) && LegalRun(Step(s, op), rest)
    ensures LegalRun(s, [op] + rest) && Exec(s, [op] + rest) == Exec(Step(s, op), rest)
  {
    assert ([op] + rest)[1..] == rest;
  }

  lemma AddAlone(s: State, a: Addr)
    requires Inv(s) && s.timers == [] && Legal(s, AddInLoop(a, s.clock))
    ensures var r := Step(s, AddInLoop(a, s.clock));
            && r.timers == [EntryOf(s, a)] && r.heap == s.heap && r.clock == s.clock
            && r.calling == s.calling && r.log == s.log && r.batchNo == s.batchNo
  {
  }

  lemma BatchAlone(s: State, a: Addr, now: int)
    requires Inv(s) && Legal(s, BeginRead(now)) && a in s.heap && s.timers == [EntryOf(s, a)] && s.heap[a].expiration <= now
    ensures var r := Step(s, BeginRead(now));
            && r.batch == s.timers && r.heap == s.heap && r.calling && r.ran == 0 && r.now == now
            && r.log == s.log && r.batchNo == s.batchNo + 1 && r.clock == now && r.canceling == {}
  {
    DueOne(EntryOf(s, a), now);
    hide Indexed, BatchInv, PartitionInv, FdInv, LogInv, DueCount;
    assert s.timers[..1] == s.timers;
  }

  lemma RunAlone(s: State, a: Addr)
    requires Inv(s) && s.calling && s.ran == 0 && a in s.heap && s.batch == [EntryOf(s, a)]
    ensures Legal(s, RunNext) && LegalRun(Step(s, RunNext), []) && Exec(Step(s, RunNext), []) == Step(s, RunNext)
    ensures Step(s, RunNext).log == s.log + [Run(s.batchNo, s.heap[a].sequence, s.heap[a].expiration, s.now)]
    ensures var r := Step(s, RunNext); Legal(r, EndRead(s.clock)) && r.batch == s.batch && r.heap == s.heap && r.clock == s.clock
  {
  }

  /** A timer added to an empty queue is called in the next batch that finds it due. */
  lemma AddedTimerRuns(s: State, a: Addr, now: int)
    requires Inv(s) && !s.calling && s.timers == [] && Legal(s, AddInLoop(a, s.clock))
    requires s.clock <= now && s.heap[a].expiration <= now
    ensures var ops := [AddInLoop(a, s.clock)] + ([BeginRead(now)] + ([RunNext] + []));
            && LegalRun(s, ops)
            && Exec(s, ops).log == s.log + [Run(s.batchNo + 1, s.heap[a].sequence, s.heap[a].expiration, now)]
            && Exec(s, ops).heap == s.heap && Exec(s, ops).batch == [EntryOf(s, a)] && Legal(Exec(s, ops), EndRead(now))
  {
    hide LegalRun, Exec, Inv, Step;
    AddAlone(s, a);
    var s1 := Step(s, AddInLoop(a, s.clock));
    BatchAlone(s1, a, now);
    var s2 := Step(s1, BeginRead(now));
    RunAlone(s2, a);
    ExecCons(s2, RunNext, []);
    ExecCons(s1, BeginRead(now), [RunNext] + []);
    ExecCons(s, AddInLoop(a, s.clock), [BeginRead(now)] + ([RunNext] + []));
  }

  /** Such a timer runs: created, cancelled, then added, it is due and called in the next batch. */
  lemma OvertakenCancelIsLost(addr: Addr, when: int, clock: int)
    requires 0 < clock
    ensures var tail := [AddInLoop(addr, clock)] + ([BeginRead(Max(when, clock))] + ([RunNext] + []));
            var ops := [Create(addr, when, false, 0)] + ([CancelInLoop(TimerId(addr, 1))] + tail);
            && LegalRun(Initial(clock), ops)
            && Exec(Initial(clock), ops).log == [Run(1, 1, when, Max(when, clock))]
  {
    var s := Step(Initial(clock), Create(addr, when, false, 0));
    assert Step(s, CancelInLoop(TimerId(addr, 1))) == s;
    AddedTimerRuns(s, addr, Max(when, clock));
    hide LegalRun, Exec, Inv;
    var tail := [AddInLoop(addr, clock)] + ([BeginRead(Max(when, clock))] + ([RunNext] + []));
    ExecCons(s, CancelInLoop(TimerId(addr, 1)), tail);
    ExecCons(Initial(clock), Create(addr, when, false, 0), [CancelInLoop(TimerId(addr, 1))] + tail);
  }

  /** A stale id, even one whose address now holds another timer, removes nothing. */
  lemma StaleIdRemovesNothing(s: State, id: TimerId)
    requires Inv(s) && !(id.addr in s.heap && s.heap[id.addr].sequence == id.sequence)
    ensures var r := Step(s, CancelInLoop(id));
            r.heap == s.heap && r.timers == s.timers && r.active == s.active && r.batch == s.batch && r.deleted == s.deleted
    ensures forall a :: a in s.heap ==> (IdOf(s, a) in Step(s, CancelInLoop(id)).canceling <==> IdOf(s, a) in s.canceling)
  {
  }

  /** A live id removes its own timer from the queue and no other. */
  lemma CancelRemovesOnlyItself(s: State, id: TimerId)
    requires Inv(s) && id in s.active
    ensures var r := Step(s, CancelInLoop(id));
            && r.heap == s.heap - {id.addr} && r.active == s.active - {id}
            && (forall e :: e in r.timers <==> e in s.timers && e.addr != id.addr)
            && r.deleted == s.deleted + {id.sequence}
  {
  }

  // ----- the outcome of a batch -----

  /** What reset makes of one timer of the batch, seen in a later state of the same loop. */
  ghost predicate Settled(s: State, r: State, a: Addr)
    requires a in s.heap
  {
    var timer := s.heap[a];
    if timer.repeat && IdOf(s, a) !in s.canceling then
      a in r.heap && r.heap[a] == timer.(expiration := s.now + timer.interval) && Queued(r, a)
    else
      a !in r.heap && timer.sequence in r.deleted
  }

  lemma {:induction false} ResetKeepsOthers(s: State)
    requires Inv(s) && s.calling
    ensures forall a :: a in s.heap && !InBatch(s, a) ==>
              a in ResetAll(s).heap && ResetAll(s).heap[a] == s.heap[a] && Queued(ResetAll(s), a) == Queued(s, a)
    ensures forall a :: a !in s.heap ==> a !in ResetAll(s).heap
    decreases |s.batch|
  {
    if s.batch != [] {
      BatchHead(s);
      ResetOneInv(s);
      ResetOneOthers(s);
      ResetKeepsOthers(ResetOne(s));
    }
  }

  lemma ResetSettlesHead(s: State)
    requires Inv(s) && s.calling && s.batch != []
    ensures Settled(s, ResetAll(s), s.batch[0].addr)
  {
    hide PartitionInv, FdInv, LogInv, Sorted;
    BatchHead(s);
    ResetOneInv(s);
    ResetKeepsOthers(ResetOne(s));
    ResetOlder(ResetOne(s));
  }

  lemma SettledEarlier(s: State, r: State, end: State, a: Addr)
    requires a in s.heap && a in r.heap && r.heap[a] == s.heap[a] && r.now == s.now && r.canceling == s.canceling
    requires Settled(r, end, a)
    ensures Settled(s, end, a)
  {
  }

  lemma {:induction false} ResetSettles(s: State, e: Entry)
    requires Inv(s) && s.calling && e in s.batch
    ensures Settled(s, ResetAll(s), e.addr)
    decreases |s.batch|
  {
    hide Indexed, PartitionInv, FdInv, LogInv, Settled;
    BatchHead(s);
    if e.addr == s.batch[0].addr {
      ResetSettlesHead(s);
    } else {
      ResetOneInv(s);
      ResetOneOthers(s);
      ResetAllStep(s);
      var r := ResetOne(s);
      hide ResetAll, ResetOne;
      ResetSettles(r, e);
      SettledEarlier(s, r, ResetAll(s), e.addr);
    }
  }

  lemma ResetAllStep(s: State)
    requires Inv(s) && s.calling && s.batch != [] && Inv(ResetOne(s)) && ResetOne(s).calling
    ensures var r := ResetOne(s);
            ResetAll(s) == ResetAll(r) && r.batch == s.batch[1..] && r.now == s.now && r.canceling == s.canceling
  {
  }

  /**
   * After a batch every repeating, uncancelled timer of it is queued again at now + interval, every other timer of it
   * is deleted, and no timer outside the batch changed.
   */
  lemma BatchOutcome(s: State, t: int)
    requires Inv(s) && Legal(s, EndRead(t))
    ensures forall e :: e in s.batch ==> Settled(s, Step(s, EndRead(t)), e.addr)
    ensures forall a :: a in s.heap && !InBatch(s, a) ==>
              var r := Step(s, EndRead(t));
              a in r.heap && r.heap[a] == s.heap[a] && Queued(r, a) == Queued(s, a)
    ensures forall a :: a in Step(s, EndRead(t)).heap ==> a in s.heap
  {
    ResetKeepsOthers(s);
    var q, r := ResetAll(s), Step(s, EndRead(t));
    assert q.heap == r.heap && q.timers == r.timers && q.deleted == r.deleted;
    forall e | e in s.batch ensures Settled(s, r, e.addr) {
      ResetSettles(s, e);
    }
  }

  // ----- a whole handleRead -----

  /** One callback for each timer of a batch, in its order; `b` is the state right after the batch was collected. */
  function Calls(b: State): seq<Run>
    requires forall e :: e in b.batch ==> e.addr in b.heap
  {
    seq(|b.batch|, i requires 0 <= i < |b.batch| =>
      Run(b.batchNo, b.heap[b.batch[i].addr].sequence, b.batch[i].when, b.now))
  }

  /** Somewhere in the batch that `b` began: the first `ran` callbacks were made, and the batch is untouched. */
  ghost predicate Midway(b: State, r: State) {
    && (forall e :: e in b.batch ==>
         e.addr in b.heap && e.addr in r.heap && r.heap[e.addr].sequence == b.heap[e.addr].sequence)
    && r.calling && r.batch == b.batch && r.now == b.now && r.batchNo == b.batchNo && r.ran <= |r.batch|
    && r.log == b.log + Calls(b)[..r.ran]
  }

  lemma StepMidway(b: State, r: State, op: Op)
    requires Inv(r) && Legal(r, op) && !op.EndRead? && Midway(b, r)
    ensures Midway(b, Step(r, op))
  {
    hide Inv, Midway;
    MidwayCalling(b, r);
    if op.CancelInLoop? {
      CancelMidway(b, r, op.id);
    } else if op.RunNext? {
      RunMidway(b, r);
    } else if !op.BeginRead? {
      OtherMidway(b, r, Step(r, op));
    }
  }

  lemma MidwayCalling(b: State, r: State)
    requires Midway(b, r)
    ensures r.calling
  {
  }

  lemma OtherMidway(b: State, r: State, q: State)
    requires Midway(b, r) && (forall a :: a in r.heap ==> a in q.heap && q.heap[a] == r.heap[a])
    requires q.calling && q.batch == r.batch && q.ran == r.ran && q.now == r.now && q.batchNo == r.batchNo && q.log == r.log
    ensures Midway(b, q)
  {
  }

  lemma CancelMidway(b: State, r: State, id: TimerId)
    requires Inv(r) && Midway(b, r)
    ensures Midway(b, Cancel(r, id))
  {
    var q := Cancel(r, id);
    forall e | e in b.batch ensures e.addr in q.heap && q.heap[e.addr] == r.heap[e.addr] {
      NotQueuedAt(r, e.addr);
    }
  }

  lemma RunMidway(b: State, r: State)
    requires Inv(r) && Legal(r, RunNext) && Midway(b, r)
    ensures Midway(b, RunTimer(r))
  {
    var e := r.batch[r.ran];
    assert e in b.batch;
    assert Calls(b)[..r.ran + 1] == Calls(b)[..r.ran] + [Calls(b)[r.ran]];
  }

  lemma {:induction false} RunsMidway(b: State, r: State, ops: seq<Op>)
    requires Inv(r) && LegalRun(r, ops) && Midway(b, r) && forall op :: op in ops ==> !op.EndRead?
    ensures Midway(b, Exec(r, ops))
    decreases |ops|
  {
    hide Inv, Step, Legal, Midway;
    if ops != [] {
      assert ops[0] in ops && forall op :: op in ops[1..] ==> op in ops;
      StepMidway(b, r, ops[0]);
      RunsMidway(b, Step(r, ops[0]), ops[1..]);
    }
  }

  lemma BatchBegins(s: State, now: int)
    requires Inv(s) && Legal(s, BeginRead(now))
    ensures var b := Step(s, BeginRead(now));
            && Midway(b, b) && b.log == s.log && Sorted(b.batch) && s.timers == b.batch + b.timers
            && (forall e :: e in s.timers ==> (e in b.batch <==> e.when <= now))
  {
    hide PartitionInv, FdInv, LogInv, Indexed, DueCount, IdsOf;
    GetExpiredExact(s, now);
  }

  lemma EndKeepsLog(s: State, t: int)
    requires Inv(s) && Legal(s, EndRead(t))
    ensures Step(s, EndRead(t)).log == s.log && s.ran == |s.batch|
  {
    EndOlder(s, t);
  }

  /**
   * A whole handleRead, whatever its callbacks add, cancel and create: the batch is exactly the timers due at or before
   * now in expiration order, and the log gains exactly one callback for each of them, in that order.
   */
  lemma HandleReadCallsEachOnce(s: State, now: int, mid: seq<Op>, t: int)
    requires Inv(s) && Legal(s, BeginRead(now)) && LegalRun(Step(s, BeginRead(now)), mid)
    requires (forall op :: op in mid ==> !op.EndRead?) && Legal(Exec(Step(s, BeginRead(now)), mid), EndRead(t))
    ensures var b := Step(s, BeginRead(now));
            && Sorted(b.batch) && s.timers == b.batch + b.timers
            && (forall e :: e in s.timers ==> (e in b.batch <==> e.when <= now))
            && (forall e :: e in b.batch ==> e.addr in b.heap)
            && Step(Exec(b, mid), EndRead(t)).log == s.log + Calls(b)
  {
    hide Inv, Step, Legal, Sorted;
    var b := Step(s, BeginRead(now));
    BatchBegins(s, now);
    RunsMidway(b, b, mid);
    EndKeepsLog(Exec(b, mid), t);
    assert Calls(b)[..|b.batch|] == Calls(b);
  }

  // ----- the id that addTimer returns -----

  /**
   * addTimer reads the sequence number after handing the timer over. That read finds the timer it was made for exactly
   * when the timer was not deleted in between.
   */
  lemma LateReadIff(s: State, a: Addr, ops: seq<Op>)
    requires Inv(s) && FreedOnce(s) && a in s.heap && LegalRun(s, ops)
    ensures var q, r := s.heap[a].sequence, Exec(s, ops);
            a in r.heap && r.heap[a].sequence == q <==> forall i :: |s.frees| <= i < |r.frees| ==> r.frees[i] != q
  {
    var q, r := s.heap[a].sequence, Exec(s, ops);
    assert HomeInv(s, a);
    RunFrees(s, ops);
    RunOlder(s, ops);
    LiveIff(r, q);
    FreshFrees(s, r, q);
  }

  lemma LiveIff(s: State, q: nat)
    requires Inv(s) && q in s.home
    ensures s.home[q] in s.heap && s.heap[s.home[q]].sequence == q <==> q !in s.deleted
  {
    if q in s.deleted {
      DeletedIsNotLive(s, q);
    }
  }

  lemma FreshFrees(s: State, r: State, q: nat)
    requires FreedOnce(s) && FreesNew(s, r) && q !in s.deleted
    ensures q in r.deleted <==> exists i :: |s.frees| <= i < |r.frees| && r.frees[i] == q
  {
    if q in r.deleted {
      var i :| 0 <= i < |r.frees| && r.frees[i] == q;
      assert forall k :: 0 <= k < |s.frees| ==> r.frees[k] == s.frees[k] && s.frees[k] in s.deleted;
    }
  }

  /** In the loop thread nothing comes between the add and the read. */
  lemma ReadAfterAddIsSafe(s: State, a: Addr, t: int)
    requires Inv(s) && Legal(s, AddInLoop(a, t))
    ensures var r := Step(s, AddInLoop(a, t)); a in r.heap && r.heap[a].sequence == s.heap[a].sequence
  {
  }

  /** From another thread the timer can be run and deleted first: the read is of freed memory, or of the next timer there. */
  lemma LateReadDangles(s: State, a: Addr, now: int)
    requires Inv(s) && !s.calling && s.timers == [] && Legal(s, AddInLoop(a, s.clock)) && !s.heap[a].repeat
    requires s.clock <= now && s.heap[a].expiration <= now
    ensures var ops := [AddInLoop(a, s.clock)] + ([BeginRead(now)] + ([RunNext] + []));
            && LegalRun(s, ops) && Legal(Exec(s, ops), EndRead(now))
            && var r := Step(Exec(s, ops), EndRead(now));
               && a !in r.heap
               && Step(r, Create(a, now, false, 0)).heap[a].sequence == r.numCreated + 1
  {
    AddedTimerRuns(s, a, now);
    var ops := [AddInLoop(a, s.clock)] + ([BeginRead(now)] + ([RunNext] + []));
    var q := Exec(s, ops);
    hide Exec, LegalRun, Inv;
    BatchOutcome(q, now);
    assert EntryOf(s, a) in q.batch;
  }
}
