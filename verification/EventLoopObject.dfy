/** The fields and methods of muduo/net/EventLoop.cc, split at its locks: each piece computes its step of `EventLoops`. */
module EventLoopObjects {
  import opened EventLoops

  class EventLoop {
    var looping: bool
    var quit: bool
    var eventHandling: bool
    var callingPendingFunctors: bool
    var pendingFunctors: seq<Functor>
    var wakeupFd: nat              // the eventfd counter
    // the locals of doPendingFunctors
    var functors: seq<Functor>
    var i: nat
    ghost var model: State

    ghost predicate Valid()
      reads this
    {
      && Safe(model)
      && looping == !model.pc.Outside? && quit == model.quit && eventHandling == model.pc.Handling?
      && callingPendingFunctors == (model.pc.BeforeSwap? || model.pc.Running?)
      && pendingFunctors == model.pending && wakeupFd == model.tokens
      && (model.pc.Running? ==> model.pc == Running(functors, i))
    }

    constructor ()
      ensures Valid() && model == INITIAL
    {
      looping, quit, eventHandling, callingPendingFunctors := false, false, false, false;
      pendingFunctors, wakeupFd, functors, i := [], 0, [], 0;
      model := INITIAL;
    }

    /** The locked half of queueInLoop, and the test whether a wakeup has to follow. */
    method Push(f: Functor, op: Op) returns (mustWake: bool)
      requires Valid() && Legal(model, op) && (op == LoopPush(f) || (op.ForeignPush? && op.f == f))
      modifies this
      ensures Valid() && model == Step(old(model), op)
      // a caller that must wake is on record as owing the wakeup, and only such a caller is
      ensures mustWake == if op.ForeignPush? then op.t in model.owing else model.loopOwes
    {
      StepSafe(model, op);
      pendingFunctors := pendingFunctors + [f];
      var inLoopThread := op.LoopPush?;
      mustWake := !inLoopThread || callingPendingFunctors;
      model := Step(model, op);
    }

    method Wakeup(op: Op)
      requires Valid() && Legal(model, op) && (op.ForeignWake? || op.LoopWake?)
      modifies this
      ensures Valid() && model == Step(old(model), op)
    {
      StepSafe(model, op);
      wakeupFd := wakeupFd + 1;
      model := Step(model, op);
    }

    method Quit(op: Op)
      requires Valid() && Legal(model, op) && (op.ForeignQuit? || op.LoopQuit?)
      modifies this
      ensures Valid() && model == Step(old(model), op)
    {
      StepSafe(model, op);
      quit := true;
      model := Step(model, op);
    }

    method HandleRead()
      requires Valid() && Legal(model, Drain)
      modifies this
      ensures Valid() && model == Step(old(model), Drain)
    {
      StepSafe(model, Drain);
      wakeupFd := 0;
      model := Step(model, Drain);
    }

    /** The loop's own moves outside the functors. */
    method LoopMove(op: Op)
      requires Valid() && Legal(model, op) && (op.StartLoop? || op.TestQuit? || op.PollReturn? || op.EndHandling?)
      modifies this
      ensures Valid() && model == Step(old(model), op)
    {
      StepSafe(model, op);
      match op {
        case StartLoop => looping, quit := true, false;
        case TestQuit => if quit { looping := false; }
        case PollReturn(_) => eventHandling := true;
        case EndHandling => eventHandling, callingPendingFunctors := false, true;
      }
      model := Step(model, op);
    }

    /** doPendingFunctors: the swap, one round of its loop, and its end. */
    method SwapPending()
      requires Valid() && Legal(model, Swap)
      modifies this
      ensures Valid() && model == Step(old(model), Swap)
    {
      StepSafe(model, Swap);
      functors, pendingFunctors := pendingFunctors, [];
      i := 0;
      model := Step(model, Swap);
    }

    method RunOne() returns (f: Functor)
      requires Valid() && Legal(model, RunFunctor)
      modifies this
      ensures Valid() && model == Step(old(model), RunFunctor)
      ensures model.executed == old(model.executed) + [f]
    {
      StepSafe(model, RunFunctor);
      f := functors[i];
      i := i + 1;
      model := Step(model, RunFunctor);
    }

    method EndPending()
      requires Valid() && Legal(model, EndRun)
      modifies this
      ensures Valid() && model == Step(old(model), EndRun)
    {
      StepSafe(model, EndRun);
      callingPendingFunctors := false;
      model := Step(model, EndRun);
    }

    method Perform(op: Op)
      requires Valid() && Legal(model, op)
      modifies this
      ensures Valid() && model == Step(old(model), op)
    {
      match op
      case ForeignPush(_, f) => var _ := Push(f, op);
      case LoopPush(f) => var _ := Push(f, op);
      case ForeignWake(_) => Wakeup(op);
      case LoopWake => Wakeup(op);
      case ForeignQuit(_) => Quit(op);
      case LoopQuit => Quit(op);
      case Drain => HandleRead();
      case Swap => SwapPending();
      case RunFunctor => var _ := RunOne();
      case EndRun => EndPending();
      case _ => LoopMove(op);
    }

    /** Every interleaving of the pieces takes the object where the transition system goes. */
    method Replay(ops: seq<Op>)
      requires Valid() && LegalRun(model, ops)
      modifies this
      ensures Valid() && model == Exec(old(model), ops)
      decreases |ops|
    {
      if ops != [] {
        Perform(ops[0]);
        Replay(ops[1..]);
      }
    }
  }
}
