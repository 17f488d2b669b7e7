/** The fields of muduo/base/AsyncLogging.cc and the locals of its writer thread, moved about as append and threadFunc do. */
module AsyncLoggingObjects {
  import opened Wire
  import opened AsyncLogging

  class AsyncLogger {
    var running: bool
    var currentBuffer: Text
    var nextBuffer: Option<Text>
    var buffers: seq<Text>
    // the locals of threadFunc
    var newBuffer1: Option<Text>
    var newBuffer2: Option<Text>
    var buffersToWrite: seq<Text>
    var i: nat
    var output: seq<Item>
    ghost var model: State

    ghost predicate Valid()
      reads this
    {
      && Inv(model)
      && running == model.running && currentBuffer == model.current && nextBuffer == model.next && buffers == model.buffers
      && newBuffer1 == model.spare1 && newBuffer2 == model.spare2 && output == model.file
      && match model.pc
         case Grabbed(batch) => buffersToWrite == batch
         case Writing(batch, next) => buffersToWrite == batch && i == next
         case _ => buffersToWrite == []
    }

    constructor ()
      ensures Valid() && model == INITIAL
    {
      running, currentBuffer, nextBuffer, buffers := true, [], Some([]), [];
      newBuffer1, newBuffer2, buffersToWrite, i, output := Some([]), Some([]), [], 0, [];
      model := INITIAL;
    }

    method Append(line: Text)
      requires Valid()
      modifies this
      ensures Valid() && model == Step(old(model), Op.Append(line))
    {
      if |currentBuffer| + |line| < LARGE_BUFFER {
        currentBuffer := FixedAppend(currentBuffer, line);
      } else {
        buffers := buffers + [currentBuffer];
        match nextBuffer {
          case Some(buf) =>
            currentBuffer := buf;
            nextBuffer := None;
          case None =>
            currentBuffer := [];
        }
        currentBuffer := FixedAppend(currentBuffer, line);
      }
      model := Step(model, Op.Append(line));
    }

    /** The writer's critical section. */
    method Grab()
      requires Valid() && Legal(model, Op.Grab)
      modifies this
      ensures Valid() && model == Step(old(model), Op.Grab)
    {
      buffers := buffers + [currentBuffer];
      currentBuffer, newBuffer1 := newBuffer1.value, None;
      buffersToWrite, buffers := buffers, buffersToWrite;
      if nextBuffer.None? {
        nextBuffer, newBuffer2 := newBuffer2, None;
      }
      model := Step(model, Op.Grab);
    }

    method Trim()
      requires Valid() && Legal(model, Op.Trim)
      modifies this
      ensures Valid() && model == Step(old(model), Op.Trim)
    {
      if |buffersToWrite| > MAX_BATCH {
        output := output + [Dropped(|buffersToWrite| - 2)];
        buffersToWrite := buffersToWrite[..2];
      }
      i := 0;
      model := Step(model, Op.Trim);
    }

    method WriteOne()
      requires Valid() && Legal(model, Op.WriteOne)
      modifies this
      ensures Valid() && model == Step(old(model), Op.WriteOne)
    {
      output := output + Items(buffersToWrite[i]);
      i := i + 1;
      model := Step(model, Op.WriteOne);
    }

    /** Refilling the spares from the written buffers; both assertions that there is one to pop hold. */
    method Recycle()
      requires Valid() && Legal(model, Op.Recycle)
      modifies this
      ensures Valid() && model == Step(old(model), Op.Recycle)
      ensures newBuffer1 == Some([]) && newBuffer2 == Some([]) && buffersToWrite == []
    {
      if |buffersToWrite| > 2 {
        buffersToWrite := buffersToWrite[..2];
      }
      if newBuffer1.None? {
        assert buffersToWrite != [];
        buffersToWrite := buffersToWrite[..|buffersToWrite| - 1];
        newBuffer1 := Some([]);
      }
      if newBuffer2.None? {
        assert buffersToWrite != [];
        buffersToWrite := buffersToWrite[..|buffersToWrite| - 1];
        newBuffer2 := Some([]);
      }
      buffersToWrite := [];
      model := Step(model, Op.Recycle);
    }

    method Perform(op: Op)
      requires Valid() && Legal(model, op)
      modifies this
      ensures Valid() && model == Step(old(model), op)
    {
      match op
      case Append(line) => Append(line);
      case Stop =>
        running := false;
        model := Step(model, op);
      case Exit => model := Step(model, op);
      case Enter => model := Step(model, op);
      case Wait => model := Step(model, op);
      case Grab => Grab();
      case Trim => Trim();
      case WriteOne => WriteOne();
      case Recycle => Recycle();
    }

    /** Every interleaving of appenders and writer; the log is conserved exactly on the runs without a lossy step. */
    method Replay(ops: seq<Op>)
      requires Valid() && LegalRun(model, ops)
      modifies this
      ensures Valid() && model == Exec(old(model), ops)
      decreases |ops|
    {
      hide Inv;
      if ops != [] {
        Perform(ops[0]);
        Replay(ops[1..]);
      }
    }
  }
}
