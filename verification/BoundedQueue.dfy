/**
 * muduo/base/BoundedBlockingQueue.h as a transition system: any number of putters and takers, one mutex, and two
 * condition variables with signals that wake at least one waiter and waiters that may also wake by themselves.
 * The mutex makes each of its critical sections one step. put signals after releasing it, take before.
 */
module BoundedQueues {
  type Tid = nat
  type Item = nat

  datatype State = State(
    capacity: nat,
    queue: seq<Item>,
    // takers asleep on notEmpty, and takers woken from it that have not got the mutex back
    takersAsleep: set<Tid>,
    takersWoken: set<Tid>,
    // the same for putters on notFull; what each of them wants to put
    puttersAsleep: set<Tid>,
    puttersWoken: set<Tid>,
    wants: map<Tid, Item>,
    // putters that pushed, left the mutex and have not called notEmpty.notify() yet
    notifying: set<Tid>,
    // history
    put: seq<Item>,
    taken: seq<Item>)

  datatype Op =
    | Put(t: Tid, x: Item)             // put's critical section, entered for the first time
    | RetryPut(t: Tid)                 // a woken putter has the mutex again
    | NotifyNotEmpty(t: Tid, woken: set<Tid>)
    | Take(t: Tid, woken: set<Tid>)    // take's critical section, with its notFull.notify()
    | RetryTake(t: Tid, woken: set<Tid>)
    | SpuriousTaker(t: Tid)
    | SpuriousPutter(t: Tid)

  function Busy(s: State): set<Tid> {
    s.takersAsleep + s.takersWoken + s.puttersAsleep + s.puttersWoken + s.notifying
  }

  /** A signal wakes some of the sleepers, and at least one if there is any. */
  predicate Signal(asleep: set<Tid>, woken: set<Tid>) {
    woken <= asleep && (asleep != {} ==> woken != {})
  }

  predicate Full(s: State) {
    |s.queue| == s.capacity
  }

  predicate Legal(s: State, op: Op) {
    match op
    case Put(t, _) => t !in Busy(s)
    case RetryPut(t) => t in s.puttersWoken && t in s.wants
    case NotifyNotEmpty(t, woken) => t in s.notifying && Signal(s.takersAsleep, woken)
    case Take(t, woken) => t !in Busy(s) && Signal(s.puttersAsleep, woken)
    case RetryTake(t, woken) => t in s.takersWoken && Signal(s.puttersAsleep, woken)
    case SpuriousTaker(t) => t in s.takersAsleep
    case SpuriousPutter(t) => t in s.puttersAsleep
  }

  /** The body of put once the mutex is held: wait while full, else push. */
  function PutLocked(s: State, t: Tid, x: Item): State {
    if Full(s) then s.(puttersAsleep := s.puttersAsleep + {t}, wants := s.wants[t := x])
    else s.(queue := s.queue + [x], put := s.put + [x], notifying := s.notifying + {t})
  }

  /** The body of take once the mutex is held: wait while empty, else pop and signal notFull. */
  function TakeLocked(s: State, t: Tid, woken: set<Tid>): State {
    if s.queue == [] then s.(takersAsleep := s.takersAsleep + {t})
    else s.(queue := s.queue[1..], taken := s.taken + [s.queue[0]],
            puttersAsleep := s.puttersAsleep - woken, puttersWoken := s.puttersWoken + woken)
  }

  function Step(s: State, op: Op): State
    requires Legal(s, op)
  {
    match op
    case Put(t, x) => PutLocked(s, t, x)
    case RetryPut(t) => PutLocked(s.(puttersWoken := s.puttersWoken - {t}), t, s.wants[t])
    case NotifyNotEmpty(t, woken) =>
      s.(notifying := s.notifying - {t}, takersAsleep := s.takersAsleep - woken, takersWoken := s.takersWoken + woken)
    case Take(t, woken) => TakeLocked(s, t, woken)
    case RetryTake(t, woken) => TakeLocked(s.(takersWoken := s.takersWoken - {t}), t, woken)
    case SpuriousTaker(t) => s.(takersAsleep := s.takersAsleep - {t}, takersWoken := s.takersWoken + {t})
    case SpuriousPutter(t) => s.(puttersAsleep := s.puttersAsleep - {t}, puttersWoken := s.puttersWoken + {t})
  }

  function Initial(capacity: nat): State {
    State(capacity, [], {}, {}, {}, {}, map[], {}, [], [])
  }

  ghost predicate LegalRun(s: State, ops: seq<Op>)
    decreases |ops|
  {
    ops == [] || (Legal(s, ops[0]) && LegalRun(Step(s, ops[0]), ops[1..]))
  }

  function Exec(s: State, ops: seq<Op>): State
    requires LegalRun(s, ops)
    decreases |ops|
  {
    if ops == [] then s else Exec(Step(s, ops[0]), ops[1..])
  }

  // ----- the invariant -----

  ghost predicate Disjoint(s: State) {
    && s.takersAsleep !! s.takersWoken && s.puttersAsleep !! s.puttersWoken
    && s.notifying !! s.puttersAsleep && s.notifying !! s.puttersWoken
  }

  /** First in, first out, within capacity. */
  ghost predicate Fifo(s: State) {
    s.put == s.taken + s.queue && |s.queue| <= s.capacity
  }

  /** While a taker sleeps, every item is covered by a taker on its way or a putter about to signal. */
  predicate TakersCovered(s: State) {
    s.takersAsleep != {} ==> |s.queue| <= |s.takersWoken| + |s.notifying|
  }

  /** While a putter sleeps, every free slot is covered by a putter on its way. */
  predicate PuttersCovered(s: State) {
    s.puttersAsleep != {} ==> s.capacity - |s.queue| <= |s.puttersWoken|
  }

  ghost predicate Inv(s: State) {
    && Disjoint(s) && Fifo(s) && TakersCovered(s) && PuttersCovered(s)
    && Known(s)
  }

  lemma WakeSome(awake: set<Tid>, woken: set<Tid>)
    requires awake !! woken
    ensures |awake + woken| == |awake| + |woken|
    ensures woken != {} ==> |awake| + 1 <= |awake + woken|
  {
    if woken != {} {
      var t :| t in woken;
      assert |woken| == |woken - {t}| + 1;
    }
  }

  ghost predicate Known(s: State) {
    forall t :: t in s.puttersAsleep || t in s.puttersWoken ==> t in s.wants
  }

  lemma PutLockedDisjoint(s: State, t: Tid, x: Item)
    requires Disjoint(s) && t !in s.puttersAsleep && t !in s.puttersWoken && t !in s.notifying
    ensures Disjoint(PutLocked(s, t, x))
  {
  }

  lemma PutLockedInv(s: State, t: Tid, x: Item)
    requires Disjoint(s) && Fifo(s) && Known(s) && TakersCovered(s)
    requires t !in s.puttersAsleep && t !in s.puttersWoken && t !in s.notifying
    requires s.puttersAsleep != {} ==> s.capacity - |s.queue| <= |s.puttersWoken| + 1
    ensures Inv(PutLocked(s, t, x))
  {
    hide Disjoint;
    PutLockedDisjoint(s, t, x);
    assert |s.notifying + {t}| == |s.notifying| + 1;
  }

  lemma TakeLockedDisjoint(s: State, t: Tid, woken: set<Tid>)
    requires Disjoint(s) && t !in s.takersWoken && woken <= s.puttersAsleep
    ensures Disjoint(TakeLocked(s, t, woken))
  {
  }

  lemma TakerDisjoint(s: State, woken: set<Tid>)
    requires Disjoint(s) && woken <= s.puttersAsleep
    ensures s.puttersWoken !! woken
  {
  }

  lemma TakeLockedInv(s: State, t: Tid, woken: set<Tid>)
    requires Disjoint(s) && Fifo(s) && Known(s) && PuttersCovered(s)
    requires t !in s.takersWoken && Signal(s.puttersAsleep, woken)
    requires s.takersAsleep != {} ==> |s.queue| <= |s.takersWoken| + 1 + |s.notifying|
    ensures Inv(TakeLocked(s, t, woken))
  {
    hide Disjoint;
    TakeLockedDisjoint(s, t, woken);
    TakerDisjoint(s, woken);
    WakeSome(s.puttersWoken, woken);
    if s.queue != [] {
      assert s.queue == [s.queue[0]] + s.queue[1..];
      assert s.puttersAsleep - woken != {} ==> s.puttersAsleep != {};
    }
  }

  lemma NotifyInv(s: State, t: Tid, woken: set<Tid>)
    requires Inv(s) && Legal(s, NotifyNotEmpty(t, woken))
    ensures Inv(Step(s, NotifyNotEmpty(t, woken)))
  {
    WakeSome(s.takersWoken, woken);
    assert |s.notifying - {t}| == |s.notifying| - 1;
    assert s.takersAsleep - woken != {} ==> s.takersAsleep != {};
  }

  lemma SpuriousInv(s: State, op: Op)
    requires Inv(s) && Legal(s, op) && (op.SpuriousTaker? || op.SpuriousPutter?)
    ensures Inv(Step(s, op))
  {
    if op.SpuriousTaker? {
      WakeSome(s.takersWoken, {op.t});
      assert s.takersAsleep - {op.t} != {} ==> s.takersAsleep != {};
    } else {
      WakeSome(s.puttersWoken, {op.t});
      assert s.puttersAsleep - {op.t} != {} ==> s.puttersAsleep != {};
    }
  }

  lemma StepInv(s: State, op: Op)
    requires Legal(s, op) && Inv(s)
    ensures Inv(Step(s, op))
  {
    match op
    case Put(t, x) => PutLockedInv(s, t, x);
    case RetryPut(t) =>
      assert |s.puttersWoken - {t}| == |s.puttersWoken| - 1;
      PutLockedInv(s.(puttersWoken := s.puttersWoken - {t}), t, s.wants[t]);
    case NotifyNotEmpty(t, woken) => NotifyInv(s, t, woken);
    case Take(t, woken) => TakeLockedInv(s, t, woken);
    case RetryTake(t, woken) =>
      assert |s.takersWoken - {t}| == |s.takersWoken| - 1;
      TakeLockedInv(s.(takersWoken := s.takersWoken - {t}), t, woken);
    case _ => SpuriousInv(s, op);
  }

  lemma {:induction false} RunInv(s: State, ops: seq<Op>)
    requires Inv(s) && LegalRun(s, ops)
    ensures Inv(Exec(s, ops))
    decreases |ops|
  {
    if ops != [] {
      StepInv(s, ops[0]);
      RunInv(Step(s, ops[0]), ops[1..]);
    }
  }

  /** Nobody is running, woken or about to signal: every thread in put or take is asleep. */
  predicate AllAsleep(s: State) {
    s.takersWoken == {} && s.puttersWoken == {} && s.notifying == {}
  }

  /**
   * Over every interleaving: items come out in the order they went in and within capacity; and if every thread is
   * asleep, the sleeping takers really face an empty queue and the sleeping putters a full one.
   */
  lemma NoLostSignal(capacity: nat, ops: seq<Op>)
    requires LegalRun(Initial(capacity), ops)
    ensures var s := Exec(Initial(capacity), ops);
            && s.put == s.taken + s.queue && |s.queue| <= capacity
            && TakersCovered(s) && PuttersCovered(s)
            && (AllAsleep(s) && s.takersAsleep != {} ==> s.queue == [])
            && (AllAsleep(s) && s.puttersAsleep != {} ==> |s.queue| == capacity)
  {
    RunInv(Initial(capacity), ops);
    CapacityKept(Initial(capacity), ops);
  }

  lemma {:induction false} CapacityKept(s: State, ops: seq<Op>)
    requires LegalRun(s, ops)
    ensures Exec(s, ops).capacity == s.capacity
    decreases |ops|
  {
    if ops != [] {
      CapacityKept(Step(s, ops[0]), ops[1..]);
    }
  }

  /** A taker and a putter are asleep, and nobody is left to wake them. */
  predicate Deadlocked(s: State) {
    AllAsleep(s) && s.takersAsleep != {} && s.puttersAsleep != {}
  }

  ghost predicate CanDeadlock(capacity: nat) {
    exists ops :: LegalRun(Initial(capacity), ops) && Deadlocked(Exec(Initial(capacity), ops))
  }

  /** With room for at least one item, takers and putters are never all asleep together; with none, they can be. */
  lemma DeadlockIff(capacity: nat)
    ensures CanDeadlock(capacity) <==> capacity == 0
  {
    if capacity == 0 {
      var put, take := Put(0, 7), Take(1, {0});
      var s1 := Step(Initial(0), put);
      var s2 := Step(s1, take);
      assert [take][1..] == [] && [put, take][1..] == [take];
      assert LegalRun(s2, []) && LegalRun(s1, [take]) && LegalRun(Initial(0), [put, take]);
      assert Exec(s2, []) == s2 && Exec(s1, [take]) == s2 && Exec(Initial(0), [put, take]) == s2;
      assert 1 in s2.takersAsleep && 0 in s2.puttersAsleep;
      assert Deadlocked(s2);
    } else if CanDeadlock(capacity) {
      var ops :| LegalRun(Initial(capacity), ops) && Deadlocked(Exec(Initial(capacity), ops));
      NoLostSignal(capacity, ops);
    }
  }

  // ----- each call puts its own item and takes the oldest -----

  /** A putter pushes its argument, or finds the queue full and sleeps holding it. */
  lemma PutOutcome(s: State, t: Tid, x: Item)
    requires Inv(s) && Legal(s, Put(t, x))
    ensures var r := Step(s, Put(t, x));
            if |s.queue| < s.capacity then r.queue == s.queue + [x] && t in r.notifying && r.wants == s.wants
            else r.queue == s.queue && t in r.puttersAsleep && r.wants == s.wants[t := x]
  {
  }

  /** The same for a woken putter, with the item it holds. */
  lemma RetryPutOutcome(s: State, t: Tid)
    requires Inv(s) && Legal(s, RetryPut(t))
    ensures var r := Step(s, RetryPut(t));
            && t !in r.puttersWoken
            && if |s.queue| < s.capacity then r.queue == s.queue + [s.wants[t]] && t in r.notifying && t !in r.puttersAsleep
               else r.queue == s.queue && t in r.puttersAsleep && r.wants == s.wants
  {
    assert s.wants[t := s.wants[t]] == s.wants;
  }

  /** A taker takes the oldest item and signals the putters, or finds the queue empty and sleeps. */
  lemma TakeOutcome(s: State, op: Op)
    requires Inv(s) && Legal(s, op) && (op.Take? || op.RetryTake?)
    ensures var r := Step(s, op);
            if s.queue == [] then r.queue == [] && r.taken == s.taken && op.t in r.takersAsleep
            else && [r.taken[|s.taken|]] + r.queue == s.queue && r.taken == s.taken + [s.queue[0]] && op.t !in r.takersAsleep + r.takersWoken
                 && r.puttersAsleep == s.puttersAsleep - op.woken && r.puttersWoken == s.puttersWoken + op.woken
  {
    if s.queue != [] {
      assert s.queue == [s.queue[0]] + s.queue[1..];
    }
  }

  /** What a waiting putter holds. */
  function Holds(s: State, t: Tid): seq<Item> {
    if (t in s.puttersAsleep || t in s.puttersWoken) && t in s.wants then [s.wants[t]] else []
  }

  /** What a step of thread `t` pushes, read off the queue. */
  function Pushes(s: State, op: Op, t: Tid): seq<Item>
    requires Legal(s, op)
  {
    var r := Step(s, op);
    if (op.Put? || op.RetryPut?) && op.t == t && |s.queue| < |r.queue| then r.queue[|s.queue|..] else []
  }

  function PushesBy(s: State, ops: seq<Op>, t: Tid): seq<Item>
    requires LegalRun(s, ops)
    decreases |ops|
  {
    if ops == [] then [] else Pushes(s, ops[0], t) + PushesBy(Step(s, ops[0]), ops[1..], t)
  }

  /** The arguments of its calls of put. */
  function ArgumentsOf(ops: seq<Op>, t: Tid): seq<Item> {
    if ops == [] then [] else (if ops[0].Put? && ops[0].t == t then [ops[0].x] else []) + ArgumentsOf(ops[1..], t)
  }

  lemma StepHolds(s: State, op: Op, t: Tid)
    requires Inv(s) && Legal(s, op)
    ensures Pushes(s, op, t) + Holds(Step(s, op), t) == Holds(s, t) + if op.Put? && op.t == t then [op.x] else []
  {
    hide Inv, Pushes, Holds;
    if op.Put? {
      PutHolds(s, op.t, op.x, t);
    } else if op.RetryPut? {
      RetryHolds(s, op.t, t);
    } else {
      OtherHolds(s, op, t);
    }
  }

  lemma PutHolds(s: State, u: Tid, x: Item, t: Tid)
    requires Inv(s) && Legal(s, Put(u, x))
    ensures Pushes(s, Put(u, x), t) + Holds(Step(s, Put(u, x)), t) == Holds(s, t) + if u == t then [x] else []
  {
    hide Fifo, TakersCovered, PuttersCovered;
    var r := Step(s, Put(u, x));
    if Full(s) {
      assert r.queue == s.queue;
    } else {
      assert r.queue[|s.queue|..] == [x];
    }
  }

  lemma RetryHolds(s: State, u: Tid, t: Tid)
    requires Inv(s) && Legal(s, RetryPut(u))
    ensures Pushes(s, RetryPut(u), t) + Holds(Step(s, RetryPut(u)), t) == Holds(s, t) + []
  {
    hide Fifo, TakersCovered, PuttersCovered;
    var r := Step(s, RetryPut(u));
    if Full(s) {
      assert r.queue == s.queue;
    } else {
      assert r.queue[|s.queue|..] == [s.wants[u]];
    }
  }

  lemma OtherHolds(s: State, op: Op, t: Tid)
    requires Inv(s) && Legal(s, op) && !op.Put? && !op.RetryPut?
    ensures Pushes(s, op, t) + Holds(Step(s, op), t) == Holds(s, t) + []
  {
    hide Fifo, TakersCovered, PuttersCovered;
    var r := Step(s, op);
    assert r.wants == s.wants && r.puttersAsleep + r.puttersWoken == s.puttersAsleep + s.puttersWoken;
    assert t in s.puttersAsleep || t in s.puttersWoken <==> t in s.puttersAsleep + s.puttersWoken;
    assert t in r.puttersAsleep || t in r.puttersWoken <==> t in r.puttersAsleep + r.puttersWoken;
  }

  lemma {:induction false} RunHolds(s: State, ops: seq<Op>, t: Tid)
    requires Inv(s) && LegalRun(s, ops)
    ensures PushesBy(s, ops, t) + Holds(Exec(s, ops), t) == Holds(s, t) + ArgumentsOf(ops, t)
    decreases |ops|
  {
    hide Inv, Holds, Pushes, Legal, Step;
    if ops != [] {
      var r := Step(s, ops[0]);
      StepInv(s, ops[0]);
      StepHolds(s, ops[0], t);
      RunHolds(r, ops[1..], t);
      var first: seq<Item> := if ops[0].Put? && ops[0].t == t then [ops[0].x] else [];
      Regroup(Pushes(s, ops[0], t), PushesBy(r, ops[1..], t), Holds(Exec(s, ops), t), Holds(r, t), Holds(s, t), first, ArgumentsOf(ops[1..], t));
    }
  }

  lemma Regroup(a: seq<Item>, b: seq<Item>, c: seq<Item>, d: seq<Item>, e: seq<Item>, f: seq<Item>, g: seq<Item>)
    requires a + d == e + f && b + c == d + g
    ensures a + b + c == e + (f + g)
  {
    assert a + b + c == a + (b + c) == (a + d) + g == e + (f + g);
  }

  /** Over every interleaving a thread pushes the arguments of its calls, in order; at most the last one is still held. */
  lemma PushesItsArguments(capacity: nat, ops: seq<Op>, t: Tid)
    requires LegalRun(Initial(capacity), ops)
    ensures var s := Exec(Initial(capacity), ops);
            PushesBy(Initial(capacity), ops, t) + Holds(s, t) == ArgumentsOf(ops, t)
  {
    RunHolds(Initial(capacity), ops, t);
    assert [] + ArgumentsOf(ops, t) == ArgumentsOf(ops, t);
  }

  /** A signal, and a spurious wakeup, move sleepers to the woken ones and nothing else. */
  lemma WakeOutcome(s: State, op: Op)
    requires Legal(s, op)
    ensures op.NotifyNotEmpty? ==>
              Step(s, op) == s.(notifying := s.notifying - {op.t}, takersAsleep := s.takersAsleep - op.woken,
                                takersWoken := s.takersWoken + op.woken)
    ensures op.SpuriousTaker? ==> var r := Step(s, op);
              op.t !in r.takersAsleep && op.t in r.takersWoken && r.takersAsleep + r.takersWoken == s.takersAsleep + s.takersWoken
    ensures op.SpuriousPutter? ==> var r := Step(s, op);
              op.t !in r.puttersAsleep && op.t in r.puttersWoken && r.puttersAsleep + r.puttersWoken == s.puttersAsleep + s.puttersWoken
  {
  }
}
