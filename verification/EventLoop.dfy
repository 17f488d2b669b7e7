/**
 * The cross-thread functor queue and eventfd wakeup of muduo/net/EventLoop.cc, as interleaved steps of the loop thread
 * and any number of foreign threads. Every lock-protected region is one step; a push and its wakeup are two.
 */
module EventLoops {
  type Functor = nat
  type Tid = nat

  datatype Pc =
    | Outside                                // loop() is not running
    | CheckQuit                              // about to test while (!quit_)
    | AtPoll                                 // in poller_->poll
    | Handling(wake: bool)                   // in the channel callbacks; wake: handleRead of the eventfd still to come
    | BeforeSwap                             // callingPendingFunctors_ set, queue not yet swapped
    | Running(batch: seq<Functor>, next: nat)

  datatype State = State(
    pc: Pc,
    pending: seq<Functor>,
    tokens: nat,             // the eventfd counter
    quit: bool,
    owing: set<Tid>,         // foreign threads between a push (or quit_ = true) and their wakeup()
    loopOwes: bool,          // the loop thread is between a push inside a functor and its wakeup()
    // history
    pushed: seq<Functor>,
    executed: seq<Functor>,
    seen: nat,               // how many pushes had happened when poll last returned
    asked: bool)             // quit() was called and no loop() has returned since

  datatype Op =
    | ForeignPush(t: Tid, f: Functor)
    | ForeignQuit(t: Tid)
    | ForeignWake(t: Tid)
    | LoopPush(f: Functor)
    | LoopWake
    | LoopQuit
    | StartLoop
    | TestQuit
    | PollReturn(wake: bool)
    | Drain
    | EndHandling
    | Swap
    | RunFunctor
    | EndRun

  predicate Legal(s: State, op: Op) {
    match op
    case ForeignPush(t, _) => t !in s.owing
    case ForeignQuit(t) => t !in s.owing
    case ForeignWake(t) => t in s.owing
    case LoopPush(_) => s.pc.Outside? || s.pc.Handling? || (s.pc.Running? && 0 < s.pc.next && !s.loopOwes)
    case LoopWake => s.loopOwes
    case LoopQuit => s.pc.Outside? || s.pc.Handling? || (s.pc.Running? && 0 < s.pc.next && !s.loopOwes)
    case StartLoop => s.pc.Outside?
    case TestQuit => s.pc.CheckQuit?
    // A readable eventfd may still be left out of one poll result (the result array is bounded).
    case PollReturn(wake) => s.pc.AtPoll? && (wake ==> 0 < s.tokens)
    case Drain => s.pc == Handling(true)
    case EndHandling => s.pc == Handling(false)
    case Swap => s.pc.BeforeSwap?
    case RunFunctor => s.pc.Running? && s.pc.next < |s.pc.batch| && !s.loopOwes
    case EndRun => s.pc.Running? && s.pc.next == |s.pc.batch| && !s.loopOwes
  }

  function Push(s: State, f: Functor): State {
    s.(pending := s.pending + [f], pushed := s.pushed + [f])
  }

  function Step(s: State, op: Op): State
    requires Legal(s, op)
  {
    match op
    case ForeignPush(t, f) => Push(s, f).(owing := s.owing + {t})
    case ForeignQuit(t) => s.(quit := true, asked := true, owing := s.owing + {t})
    case ForeignWake(t) => s.(tokens := s.tokens + 1, owing := s.owing - {t})
    // !isInLoopThread() || callingPendingFunctors_
    case LoopPush(f) => Push(s, f).(loopOwes := s.pc.Running?)
    case LoopWake => s.(tokens := s.tokens + 1, loopOwes := false)
    case LoopQuit => s.(quit := true, asked := true)
    case StartLoop => s.(quit := false, pc := CheckQuit)
    case TestQuit => if s.quit then s.(pc := Outside, asked := false) else s.(pc := AtPoll)
    case PollReturn(wake) => s.(pc := Handling(wake), seen := |s.pushed|)
    case Drain => s.(tokens := 0, pc := Handling(false))
    case EndHandling => s.(pc := BeforeSwap)
    case Swap => s.(pending := [], pc := Running(s.pending, 0))
    case RunFunctor => s.(executed := s.executed + [s.pc.batch[s.pc.next]], pc := Running(s.pc.batch, s.pc.next + 1))
    case EndRun => s.(pc := CheckQuit)
  }

  const INITIAL := State(Outside, [], 0, false, {}, false, [], [], 0, false)

  ghost predicate LegalRun(s: State, ops: seq<Op>)
    decreases |ops|
  {
    ops == [] || (Legal(s, ops[0]) && LegalRun(Step(s, ops[0]), ops[1..]))
  }

  function Exec(s: State, ops: seq<Op>): State
    requires LegalRun(s, ops)
    decreases |ops|
  {
    if ops == [] then s else Exec(Step(s, ops[0]), ops[1..])
  }

  // ----- safety that holds on every run -----

  function InFlight(s: State): seq<Functor> {
    if s.pc.Running? && s.pc.next <= |s.pc.batch| then s.pc.batch[s.pc.next..] else []
  }

  /** Functors run in push order, each pushed one at most once: what ran is what was pushed, less what still waits. */
  ghost predicate Ordered(s: State) {
    && (s.pc.Running? ==> s.pc.next <= |s.pc.batch|)
    && s.pushed == s.executed + InFlight(s) + s.pending
  }

  /** Between iterations, everything that had been pushed when poll last returned has run. */
  ghost predicate Prompt(s: State) {
    && s.seen <= |s.pushed|
    && (s.pc.Outside? || s.pc.CheckQuit? || s.pc.AtPoll? ==> s.seen <= |s.executed|)
    && (s.pc.Running? ==> s.seen <= |s.executed + InFlight(s)|)
  }

  /** Poll is not entered or kept waiting on a raised quit flag without a wakeup there or on its way. */
  ghost predicate QuitHeard(s: State) {
    s.pc.AtPoll? && s.quit ==> 0 < s.tokens || s.owing != {}
  }

  ghost predicate Safe(s: State) {
    Ordered(s) && Prompt(s) && QuitHeard(s) && (s.loopOwes ==> s.pc.Running?)
  }

  lemma StepOrdered(s: State, op: Op)
    requires Legal(s, op) && Ordered(s)
    ensures Ordered(Step(s, op))
  {
    match op
    case ForeignPush(_, f) => PushOrdered(s, Step(s, op), f);
    case LoopPush(f) => PushOrdered(s, Step(s, op), f);
    case RunFunctor => RunOrdered(s);
    case Swap => SwapOrdered(s);
    case _ =>
  }

  lemma PushOrdered(s: State, r: State, f: Functor)
    requires Ordered(s) && r.pc == s.pc && r.executed == s.executed
    requires r.pushed == s.pushed + [f] && r.pending == s.pending + [f]
    ensures Ordered(r)
  {
  }

  lemma RunOrdered(s: State)
    requires Legal(s, RunFunctor) && Ordered(s)
    ensures Ordered(Step(s, RunFunctor))
  {
    var done, f, left := s.executed, s.pc.batch[s.pc.next], s.pc.batch[s.pc.next + 1..];
    assert s.pc.batch[s.pc.next..] == [f] + left;
    assert done + ([f] + left) == done + [f] + left;
  }

  lemma SwapOrdered(s: State)
    requires Legal(s, Swap) && Ordered(s)
    ensures Ordered(Step(s, Swap))
  {
    assert InFlight(Step(s, Swap)) == s.pending;
  }

  lemma StepSafe(s: State, op: Op)
    requires Legal(s, op) && Safe(s)
    ensures Safe(Step(s, op))
  {
    StepOrdered(s, op);
    var r := Step(s, op);
    if op.RunFunctor? {
      assert |r.executed + InFlight(r)| == |s.executed + InFlight(s)|;
    } else if op.Swap? {
      assert |r.executed + InFlight(r)| == |s.pushed|;
    }
  }

  lemma {:induction false} RunSafe(s: State, ops: seq<Op>)
    requires Safe(s) && LegalRun(s, ops)
    ensures Safe(Exec(s, ops))
    decreases |ops|
  {
    if ops != [] {
      StepSafe(s, ops[0]);
      RunSafe(Step(s, ops[0]), ops[1..]);
    }
  }

  /** Over every interleaving: push order, at most once, within one iteration of poll's return, and a raised flag is heard. */
  lemma ReachableSafe(ops: seq<Op>)
    requires LegalRun(INITIAL, ops)
    ensures Safe(Exec(INITIAL, ops))
  {
    RunSafe(INITIAL, ops);
  }

  // ----- no lost wakeup -----

  /** A waiting functor is announced: a token is undrained, or some pusher has not reached its wakeup() yet. */
  ghost predicate Announced(s: State) {
    s.pending != [] ==> 0 < s.tokens || s.owing != {} || s.loopOwes
  }

  /** Where the loop is on its way to poll without passing another swap. */
  predicate HeadingToPoll(s: State) {
    s.pc.CheckQuit? || s.pc.AtPoll? || s.pc.Running?
  }

  ghost predicate NoLostWakeup(s: State) {
    HeadingToPoll(s) ==> Announced(s)
  }

  /** Before loop() is entered: nothing is queued, or its wakeup is there or on its way. */
  ghost predicate ReadyToLoop(s: State) {
    s.pending == [] || 0 < s.tokens || s.owing != {}
  }

  /** Every entry to loop() in the run happens in a ready state. */
  ghost predicate GoodStarts(s: State, ops: seq<Op>)
    requires LegalRun(s, ops)
    decreases |ops|
  {
    ops == [] || ((ops[0].StartLoop? ==> ReadyToLoop(s)) && GoodStarts(Step(s, ops[0]), ops[1..]))
  }

  /** No state of the run has a lost wakeup. */
  ghost predicate NeverLost(s: State, ops: seq<Op>)
    requires LegalRun(s, ops)
    decreases |ops|
  {
    NoLostWakeup(s) && (ops == [] || NeverLost(Step(s, ops[0]), ops[1..]))
  }

  lemma StepNoLostWakeup(s: State, op: Op)
    requires Legal(s, op) && Safe(s) && NoLostWakeup(s)
    ensures NoLostWakeup(Step(s, op)) <==> (op.StartLoop? ==> ReadyToLoop(s))
  {
  }

  lemma {:induction false} NeverLostIff(s: State, ops: seq<Op>)
    requires Safe(s) && LegalRun(s, ops) && NoLostWakeup(s)
    ensures NeverLost(s, ops) <==> GoodStarts(s, ops)
    decreases |ops|
  {
    if ops != [] {
      StepSafe(s, ops[0]);
      StepNoLostWakeup(s, ops[0]);
      if NoLostWakeup(Step(s, ops[0])) {
        NeverLostIff(Step(s, ops[0]), ops[1..]);
      } else {
        assert !NeverLost(Step(s, ops[0]), ops[1..]);
      }
    }
  }

  /** Exactly when no wakeup is lost: every loop() is entered with an empty queue, a token, or a pusher about to wake. */
  lemma NoLostWakeupIff(ops: seq<Op>)
    requires LegalRun(INITIAL, ops)
    ensures NeverLost(INITIAL, ops) <==> GoodStarts(INITIAL, ops)
  {
    NeverLostIff(INITIAL, ops);
  }

  /** The loop thread itself never queues work while its loop is not running. */
  ghost predicate NoEarlyPush(s: State, ops: seq<Op>)
    requires LegalRun(s, ops)
    decreases |ops|
  {
    ops == [] || (!(ops[0].LoopPush? && s.pc.Outside?) && NoEarlyPush(Step(s, ops[0]), ops[1..]))
  }

  lemma {:induction false} DisciplinedStarts(s: State, ops: seq<Op>)
    requires Safe(s) && LegalRun(s, ops) && NoEarlyPush(s, ops)
    requires !s.pc.Handling? && !s.pc.BeforeSwap? ==> Announced(s)
    ensures GoodStarts(s, ops)
    decreases |ops|
  {
    if ops != [] {
      StepSafe(s, ops[0]);
      DisciplinedStarts(Step(s, ops[0]), ops[1..]);
    }
  }

  /** If the loop thread never queues outside loop(), no wakeup is ever lost, whatever the other threads do. */
  lemma DisciplinedRunsNeverLose(ops: seq<Op>)
    requires LegalRun(INITIAL, ops) && NoEarlyPush(INITIAL, ops)
    ensures NeverLost(INITIAL, ops)
  {
    DisciplinedStarts(INITIAL, ops);
    NeverLostIff(INITIAL, ops);
  }

  /** The loop thread queuing before loop() sleeps on its own functor: the test on line 170 does not wake. */
  lemma EarlyPushIsLost(f: Functor)
    ensures var ops := [LoopPush(f), StartLoop, TestQuit];
            && LegalRun(INITIAL, ops)
            && var s := Exec(INITIAL, ops);
               s.pc.AtPoll? && s.pending == [f] && s.tokens == 0 && s.owing == {} && !s.loopOwes
  {
    var s1 := Step(INITIAL, LoopPush(f));
    var s2 := Step(s1, StartLoop);
    var s3 := Step(s2, TestQuit);
    assert LegalRun(s3, []) && LegalRun(s2, [TestQuit]) && LegalRun(s1, [StartLoop, TestQuit]);
  }

  // ----- a token makes the loop run everything that waits -----

  function RunSteps(n: nat): seq<Op> {
    if n == 0 then [EndRun] else [RunFunctor] + RunSteps(n - 1)
  }

  lemma {:induction false} RunStepsRunAll(s: State)
    requires s.pc.Running? && s.pc.next <= |s.pc.batch| && !s.loopOwes
    ensures var ops := RunSteps(|s.pc.batch| - s.pc.next);
            LegalRun(s, ops) && Exec(s, ops) == s.(pc := CheckQuit, executed := s.executed + s.pc.batch[s.pc.next..])
    decreases |s.pc.batch| - s.pc.next
  {
    hide LegalRun, Exec, Step, Legal;
    var n := |s.pc.batch| - s.pc.next;
    if n == 0 {
      EndRunEnds(s);
      assert s.executed + s.pc.batch[s.pc.next..] == s.executed;
    } else {
      RunFunctorFields(s);
      var r := Step(s, RunFunctor);
      RunStepsRunAll(r);
      ExecCons(s, RunFunctor, RunSteps(n - 1));
      Regroup(s.executed, s.pc.batch, s.pc.next);
    }
  }

  lemma Regroup(done: seq<Functor>, batch: seq<Functor>, k: nat)
    requires k < |batch|
    ensures done + [batch[k]] + batch[k + 1..] == done + batch[k..]
  {
  }

  lemma RunFunctorFields(s: State)
    requires s.pc.Running? && s.pc.next < |s.pc.batch| && !s.loopOwes
    ensures Legal(s, RunFunctor)
    ensures Step(s, RunFunctor) ==
            s.(executed := s.executed + [s.pc.batch[s.pc.next]], pc := Running(s.pc.batch, s.pc.next + 1))
  {
  }

  lemma EndRunEnds(s: State)
    requires s.pc.Running? && s.pc.next == |s.pc.batch| && !s.loopOwes
    ensures LegalRun(s, [EndRun]) && Exec(s, [EndRun]) == s.(pc := CheckQuit)
  {
    assert LegalRun(Step(s, EndRun), []) && [EndRun][1..] == [];
  }

  lemma ExecCons(s: State, op: Op, rest: seq<Op>)
    requires Legal(s, op) && LegalRun(Step(s, op), rest)
    ensures LegalRun(s, [op] + rest) && Exec(s, [op] + rest) == Exec(Step(s, op), rest)
  {
    assert ([op] + rest)[1..] == rest;
  }

  /** One iteration of the loop thread on a readable eventfd. */
  function WokenIteration(n: nat): seq<Op> {
    [PollReturn(true)] + ([Drain] + ([EndHandling] + ([Swap] + RunSteps(n))))
  }

  /** One woken iteration of the loop thread, with no help from anyone, runs every functor that was pushed. */
  lemma WokenIterationRunsAll(s: State)
    requires Safe(s) && s.pc.AtPoll? && 0 < s.tokens
    ensures var ops := WokenIteration(|s.pending|);
            && LegalRun(s, ops)
            && Exec(s, ops) == s.(pc := CheckQuit, tokens := 0, pending := [], executed := s.pushed, seen := |s.pushed|)
  {
    hide LegalRun, Exec, RunSteps;
    var s1 := Step(s, PollReturn(true));
    var s2 := Step(s1, Drain);
    var s3 := Step(s2, EndHandling);
    var s4 := Step(s3, Swap);
    RunStepsRunAll(s4);
    assert s.pushed == s.executed + s.pending;
    var run := RunSteps(|s.pending|);
    ExecCons(s3, Swap, run);
    ExecCons(s2, EndHandling, [Swap] + run);
    ExecCons(s1, Drain, [EndHandling] + ([Swap] + run));
    ExecCons(s, PollReturn(true), [Drain] + ([EndHandling] + ([Swap] + run)));
  }

  // ----- quit -----

  predicate IsQuit(op: Op) {
    op.ForeignQuit? || op.LoopQuit?
  }

  /** quit() was called, no loop() has returned since, and the flag is down: nothing will make the loop return. */
  predicate Forgotten(s: State) {
    s.asked && !s.quit
  }

  /** No state of the run has forgotten a quit(). */
  ghost predicate NeverForgotten(s: State, ops: seq<Op>)
    requires LegalRun(s, ops)
    decreases |ops|
  {
    !Forgotten(s) && (ops == [] || NeverForgotten(Step(s, ops[0]), ops[1..]))
  }

  /** Every entry to loop() happens with no quit() outstanding. */
  ghost predicate FreshStarts(s: State, ops: seq<Op>)
    requires LegalRun(s, ops)
    decreases |ops|
  {
    ops == [] || ((ops[0].StartLoop? ==> !s.asked) && FreshStarts(Step(s, ops[0]), ops[1..]))
  }

  lemma {:induction false} ForgottenIff(s: State, ops: seq<Op>)
    requires LegalRun(s, ops) && !Forgotten(s)
    ensures NeverForgotten(s, ops) <==> FreshStarts(s, ops)
    decreases |ops|
  {
    if ops != [] {
      var r := Step(s, ops[0]);
      assert Forgotten(r) <==> ops[0].StartLoop? && s.asked;
      if !Forgotten(r) {
        ForgottenIff(r, ops[1..]);
      } else {
        assert !NeverForgotten(r, ops[1..]);
      }
    }
  }

  /** A quit() is forgotten on a run exactly when some loop() is entered while it is outstanding. */
  lemma QuitForgottenIff(ops: seq<Op>)
    requires LegalRun(INITIAL, ops)
    ensures NeverForgotten(INITIAL, ops) <==> FreshStarts(INITIAL, ops)
  {
    ForgottenIff(INITIAL, ops);
  }

  lemma {:induction false} AskedRun(s: State, post: seq<Op>)
    requires LegalRun(s, post) && forall op :: op in post ==> !IsQuit(op)
    ensures var r := Exec(s, post);
            && (r.asked ==> s.asked)
            && (r.asked ==> (r.quit <==> s.quit && StartLoop !in post))
            && (Forgotten(s) && !s.pc.Outside? ==> Forgotten(r) && !r.pc.Outside?)
    decreases |post|
  {
    if post != [] {
      assert post == [post[0]] + post[1..] && post[0] in post;
      AskedRun(Step(s, post[0]), post[1..]);
    }
  }

  /**
   * Seen from the call: as long as no later quit() was made and no loop() has returned, the quit is forgotten exactly
   * when a loop() was entered after it; otherwise poll does not sleep on it.
   */
  lemma QuitSleptThroughIff(pre: seq<Op>, quit: Op, post: seq<Op>)
    requires IsQuit(quit) && LegalRun(INITIAL, pre) && Legal(Exec(INITIAL, pre), quit)
    requires LegalRun(Step(Exec(INITIAL, pre), quit), post) && forall op :: op in post ==> !IsQuit(op)
    ensures var r := Exec(Step(Exec(INITIAL, pre), quit), post);
            r.asked ==>
              && (Forgotten(r) <==> StartLoop in post)
              && (r.pc.AtPoll? && StartLoop !in post ==> 0 < r.tokens || r.owing != {})
  {
    RunSafe(INITIAL, pre);
    StepSafe(Exec(INITIAL, pre), quit);
    RunSafe(Step(Exec(INITIAL, pre), quit), post);
    AskedRun(Step(Exec(INITIAL, pre), quit), post);
  }

  /** A loop that has forgotten a quit() does not return until the next one. */
  lemma ForgottenNeverReturns(s: State, ops: seq<Op>)
    requires LegalRun(s, ops) && Forgotten(s) && !s.pc.Outside? && forall op :: op in ops ==> !IsQuit(op)
    ensures !Exec(s, ops).pc.Outside?
  {
    AskedRun(s, ops);
  }

  /** A loop woken with the flag up returns after one iteration. */
  lemma HeardQuitReturns(s: State)
    requires Safe(s) && s.pc.AtPoll? && 0 < s.tokens && s.quit
    ensures var ops := WokenIteration(|s.pending|);
            && LegalRun(s, ops) && Legal(Exec(s, ops), TestQuit)
            && Step(Exec(s, ops), TestQuit).pc.Outside?
  {
    WokenIterationRunsAll(s);
  }

  /** A quit() before loop() is overwritten: its token is drained and the loop then sleeps with nobody to wake it. */
  lemma EarlyQuitIsLost(t: Tid)
    ensures var ops := [ForeignQuit(t)] + ([ForeignWake(t)] + ([StartLoop] + ([TestQuit] + WokenIteration(0))));
            && LegalRun(INITIAL, ops) && Legal(Exec(INITIAL, ops), TestQuit)
            && var s := Step(Exec(INITIAL, ops), TestQuit);
               s.pc.AtPoll? && s.asked && !s.quit && s.tokens == 0 && s.owing == {} && !s.loopOwes
  {
    hide LegalRun, Exec, WokenIteration;
    var s1 := Step(INITIAL, ForeignQuit(t));
    var s2 := Step(s1, ForeignWake(t));
    var s3 := Step(s2, StartLoop);
    var s4 := Step(s3, TestQuit);
    WokenIterationRunsAll(s4);
    ExecCons(s3, TestQuit, WokenIteration(0));
    ExecCons(s2, StartLoop, [TestQuit] + WokenIteration(0));
    ExecCons(s1, ForeignWake(t), [StartLoop] + ([TestQuit] + WokenIteration(0)));
    ExecCons(INITIAL, ForeignQuit(t), [ForeignWake(t)] + ([StartLoop] + ([TestQuit] + WokenIteration(0))));
  }

  // ----- from the calls to the record -----

  /** The functor a call pushes, if any, and those of a run in order. */
  function PushOf(op: Op): seq<Functor> {
    if op.ForeignPush? || op.LoopPush? then [op.f] else []
  }

  function PushedBy(ops: seq<Op>): seq<Functor> {
    if ops == [] then [] else PushOf(ops[0]) + PushedBy(ops[1..])
  }

  lemma {:induction false} RunPushes(s: State, ops: seq<Op>)
    requires LegalRun(s, ops)
    ensures Exec(s, ops).pushed == s.pushed + PushedBy(ops)
    decreases |ops|
  {
    hide Step, Legal, PushOf;
    if ops == [] {
      assert s.pushed + [] == s.pushed;
    } else {
      StepPushes(s, ops[0]);
      RunPushes(Step(s, ops[0]), ops[1..]);
      assert s.pushed + PushOf(ops[0]) + PushedBy(ops[1..]) == s.pushed + (PushOf(ops[0]) + PushedBy(ops[1..]));
    }
  }

  lemma StepPushes(s: State, op: Op)
    requires Legal(s, op)
    ensures Step(s, op).pushed == s.pushed + PushOf(op)
  {
    assert s.pushed + [] == s.pushed;
  }

  /** What ran, what is running and what waits are, in order, exactly the functors of all the calls. */
  lemma EveryPushIsKept(ops: seq<Op>)
    requires LegalRun(INITIAL, ops)
    ensures var s := Exec(INITIAL, ops); s.executed + InFlight(s) + s.pending == PushedBy(ops)
  {
    RunPushes(INITIAL, ops);
    RunSafe(INITIAL, ops);
    assert [] + PushedBy(ops) == PushedBy(ops);
  }

  lemma {:induction false} SeenKept(s: State, ops: seq<Op>)
    requires LegalRun(s, ops) && forall op :: op in ops ==> !op.PollReturn?
    ensures Exec(s, ops).seen == s.seen
    decreases |ops|
  {
    if ops != [] {
      assert ops[0] in ops && forall op :: op in ops[1..] ==> op in ops;
      SeenKept(Step(s, ops[0]), ops[1..]);
    }
  }

  /** Whatever was pushed before poll returned has run when the loop next comes to its test or to poll. */
  lemma RunByNextPoll(pre: seq<Op>, wake: bool, mid: seq<Op>)
    requires LegalRun(INITIAL, pre) && Legal(Exec(INITIAL, pre), PollReturn(wake))
    requires LegalRun(Step(Exec(INITIAL, pre), PollReturn(wake)), mid) && forall op :: op in mid ==> !op.PollReturn?
    ensures var r := Exec(Step(Exec(INITIAL, pre), PollReturn(wake)), mid);
            r.pc.CheckQuit? || r.pc.AtPoll? || r.pc.Outside? ==> PushedBy(pre) <= r.executed
  {
    hide Safe, Exec, LegalRun, PushedBy;
    var p := Exec(INITIAL, pre);
    var s := Step(p, PollReturn(wake));
    InitiallySafe();
    RunSafe(INITIAL, pre);
    StepSafe(p, PollReturn(wake));
    RunSafe(s, mid);
    SeenKept(s, mid);
    RunPushes(INITIAL, pre);
    RunPushes(s, mid);
    assert [] + PushedBy(pre) == PushedBy(pre);
    SeenRan(Exec(s, mid), PushedBy(pre));
  }

  lemma InitiallySafe()
    ensures Safe(INITIAL)
  {
  }

  lemma SeenRan(r: State, before: seq<Functor>)
    requires Safe(r) && before <= r.pushed && r.seen == |before|
    ensures r.pc.CheckQuit? || r.pc.AtPoll? || r.pc.Outside? ==> before <= r.executed
  {
    assert r.pushed == r.executed + (InFlight(r) + r.pending);
  }

  /** quit() raises the flag, and without a loop() in between the next test makes the loop return. */
  lemma {:induction false} QuitReturns(s: State, mid: seq<Op>)
    requires s.quit && LegalRun(s, mid) && StartLoop !in mid && Legal(Exec(s, mid), TestQuit)
    ensures Step(Exec(s, mid), TestQuit).pc.Outside?
    decreases |mid|
  {
    if mid != [] {
      assert mid[0] in mid && forall op :: op in mid[1..] ==> op in mid;
      QuitReturns(Step(s, mid[0]), mid[1..]);
    }
  }

  lemma QuitRaises(s: State, op: Op)
    requires Legal(s, op) && IsQuit(op)
    ensures var r := Step(s, op);
            r.quit && r.asked && r.pc == s.pc && r.pending == s.pending && (op.ForeignQuit? ==> op.t in r.owing)
  {
  }

  /** And only then: a loop that was entered and not told to quit goes to poll at every test. */
  lemma {:induction false} NoQuitNoReturn(s: State, mid: seq<Op>)
    requires !s.quit && LegalRun(s, mid) && (forall op :: op in mid ==> !IsQuit(op)) && Legal(Exec(s, mid), TestQuit)
    ensures Step(Exec(s, mid), TestQuit).pc.AtPoll?
    decreases |mid|
  {
    if mid != [] {
      assert mid[0] in mid && forall op :: op in mid[1..] ==> op in mid;
      NoQuitNoReturn(Step(s, mid[0]), mid[1..]);
    }
  }

  /** A wakeup adds a token and settles what its caller owed. */
  lemma WakeOutcome(s: State, op: Op)
    requires Legal(s, op) && (op.ForeignWake? || op.LoopWake?)
    ensures var r := Step(s, op);
            && r.tokens == s.tokens + 1 && r.pending == s.pending && r.pc == s.pc
            && r.owing == (if op.ForeignWake? then s.owing - {op.t} else s.owing)
            && r.loopOwes == (s.loopOwes && op.ForeignWake?)
  {
  }
}
