/** put and take of muduo/base/BoundedBlockingQueue.h over its fields, split where the mutex is given up. */
module BoundedQueueObjects {
  import opened BoundedQueues

  class BoundedBlockingQueue {
    const maxSize: nat
    var queue: seq<Item>
    var waiting: map<Tid, Item>   // the argument each waiting putter holds on its stack
    ghost var model: State

    ghost predicate Valid()
      reads this
    {
      Inv(model) && queue == model.queue && maxSize == model.capacity && waiting == model.wants
    }

    constructor (maxSize: nat)
      ensures Valid() && model == Initial(maxSize)
    {
      this.maxSize := maxSize;
      queue, waiting := [], map[];
      model := Initial(maxSize);
    }

    /** put with the mutex held: one test of the wait loop, and the push when it passes. */
    method PutLocked(x: Item, op: Op) returns (waits: bool)
      requires Valid() && Legal(model, op)
      requires op.Put? || op.RetryPut?
      requires x == if op.Put? then op.x else waiting[op.t]
      modifies this
      ensures Valid() && model == Step(old(model), op)
      ensures waits == (op.t in model.puttersAsleep)
      ensures !waits ==> queue == old(queue) + [x] && op.t in model.notifying
    {
      hide Fifo, TakersCovered, PuttersCovered;
      StepInv(model, op);
      waits := |queue| == maxSize;
      if !waits {
        queue := queue + [x];
      } else {
        waiting := waiting[op.t := x];
      }
      model := Step(model, op);
    }

    /** take with the mutex held: one test of the wait loop, and the pop when it passes. */
    method TakeLocked(op: Op) returns (waits: bool, front: Item)
      requires Valid() && Legal(model, op) && (op.Take? || op.RetryTake?)
      modifies this
      ensures Valid() && model == Step(old(model), op)
      ensures waits == (op.t in model.takersAsleep)
      ensures !waits ==> [front] + queue == old(queue) && model.taken == old(model.taken) + [front]
    {
      StepInv(model, op);
      waits, front := |queue| == 0, 0;
      if !waits {
        front := queue[0];
        queue := queue[1..];
      }
      model := Step(model, op);
    }

    method Perform(op: Op)
      requires Valid() && Legal(model, op)
      modifies this
      ensures Valid() && model == Step(old(model), op)
    {
      match op
      case Put(_, x) => var _ := PutLocked(x, op);
      case RetryPut(t) => var _ := PutLocked(waiting[t], op);
      case Take(_, _) => var _, _ := TakeLocked(op);
      case RetryTake(_, _) => var _, _ := TakeLocked(op);
      case _ =>
        // signals and spurious wakeups touch the condition variables only
        StepInv(model, op);
        model := Step(model, op);
    }

    /** Every interleaving of putters and takers takes the object where the transition system goes. */
    method Replay(ops: seq<Op>)
      requires Valid() && LegalRun(model, ops)
      modifies this
      ensures Valid() && model == Exec(old(model), ops)
      decreases |ops|
    {
      hide Inv;
      if ops != [] {
        Perform(ops[0]);
        Replay(ops[1..]);
      }
    }
  }
}
