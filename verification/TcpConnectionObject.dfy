/** The TcpConnection methods over a real output buffer: each one computes its transition of `TcpConnections`. */
module TcpConnectionObjects {
  import opened Wire
  import opened Buffers
  import opened TcpConnections

  const HIGH_WATER_MARK: nat := 64 * 1024 * 1024

  class TcpConnection {
    var state: Phase
    var watchesWrite: bool
    const outputBuffer: Buffer
    var highWaterMark: nat
    var queue: seq<Functor>
    var threads: map<Tid, Intent>
    var notices: seq<Notice>
    var shutdownWrites: nat        // socket_->shutdownWrite() calls so far
    ghost var model: State

    ghost predicate Valid()
      reads this, outputBuffer, outputBuffer.data
    {
      && Inv(model)
      && outputBuffer.Valid() && outputBuffer.Contents() == model.out
      && state == model.phase && watchesWrite == model.writing && highWaterMark == model.highWaterMark
      && queue == model.queue && threads == model.threads && notices == model.notices && shutdownWrites == model.shutdowns
    }

    constructor ()
      ensures Valid() && fresh(outputBuffer) && fresh(outputBuffer.data)
      ensures model == Initial(HIGH_WATER_MARK)
    {
      state, watchesWrite := Connecting, false;
      var buffer := new Buffer();
      outputBuffer := buffer;
      highWaterMark := HIGH_WATER_MARK;
      queue, threads, notices, shutdownWrites := [], map[], [], 0;
      model := Initial(HIGH_WATER_MARK);
    }

    method ConnectEstablished()
      requires Valid() && state == Connecting
      modifies this
      ensures Valid() && model == Step(old(model), Establish)
    {
      StepInv(model, Establish);
      state := Connected;
      model := Step(model, Establish);
    }

    /** sendInLoop: try the kernel first, buffer the rest and watch for writability. */
    method SendInLoop(data: seq<byte>, res: WriteResult)
      requires Valid() && Possible(res, |data|) && state != Connecting
      modifies this, outputBuffer, outputBuffer.data
      ensures Valid() && (outputBuffer.data == old(outputBuffer.data) || fresh(outputBuffer.data))
      ensures model == TcpConnections.SendInLoop(old(model), data, res)
    {
      SendInLoopInv(model, data, res);
      SendInLoopFields(model, data, res);
      hide Inv, TcpConnections.SendInLoop, Kept, SendNotice;
      if state == Disconnected {
        NothingSent(model, data, res);
        return;
      }
      WriteOrBuffer(data, res, model);
      model := TcpConnections.SendInLoop(model, data, res);
    }

    /** The rest of sendInLoop on a connection that is not disconnected, in the state `s`. */
    method WriteOrBuffer(data: seq<byte>, res: WriteResult, ghost s: State)
      requires outputBuffer.Valid() && Possible(res, |data|) && !s.phase.Disconnected?
      requires outputBuffer.Contents() == s.out && watchesWrite == s.writing && highWaterMark == s.highWaterMark
      modifies this`notices, this`watchesWrite, outputBuffer, outputBuffer.data
      ensures outputBuffer.Valid() && (outputBuffer.data == old(outputBuffer.data) || fresh(outputBuffer.data))
      ensures outputBuffer.Contents() == s.out + Kept(s, data, res)
      ensures watchesWrite == (s.writing || Kept(s, data, res) != [])
      ensures notices == old(notices) + SendNotice(s, data, res)
    {
      var nwrote := 0;
      var remaining := |data|;
      var error := false;
      if !watchesWrite && outputBuffer.ReadableBytes() == 0 {
        match res {
          case Wrote(n) =>
            nwrote := n;
            remaining := |data| - nwrote;
            if remaining == 0 {
              notices := notices + [WriteComplete];
            }
          case Pipe =>
            error := true;
          case _ =>
        }
      }
      if !error && remaining > 0 {
        BufferRest(data[nwrote..]);
      }
    }

    /** The end of sendInLoop: append what is left, report a crossing of the high-water mark, watch for writability. */
    method BufferRest(rest: seq<byte>)
      requires outputBuffer.Valid() && rest != []
      modifies this`notices, this`watchesWrite, outputBuffer, outputBuffer.data
      ensures outputBuffer.Valid() && (outputBuffer.data == old(outputBuffer.data) || fresh(outputBuffer.data))
      ensures outputBuffer.Contents() == old(outputBuffer.Contents()) + rest && watchesWrite
      ensures var was, size := old(outputBuffer.ReadableBytes()), old(outputBuffer.ReadableBytes()) + |rest|;
              notices == old(notices) + if was < highWaterMark <= size then [HighWater(size)] else []
    {
      var oldLen := outputBuffer.ReadableBytes();
      if oldLen + |rest| >= highWaterMark && oldLen < highWaterMark {
        notices := notices + [HighWater(oldLen + |rest|)];
      }
      outputBuffer.Append(rest);
      if !watchesWrite {
        watchesWrite := true;
      }
    }

    method Send(data: seq<byte>, res: WriteResult)
      requires Valid() && Possible(res, |data|)
      modifies this, outputBuffer, outputBuffer.data
      ensures Valid() && (outputBuffer.data == old(outputBuffer.data) || fresh(outputBuffer.data))
      ensures model == Step(old(model), Op.Send(data, res))
    {
      if state == Connected {
        SendInLoop(data, res);
      }
    }

    method ShutdownInLoop()
      modifies this`shutdownWrites
      ensures shutdownWrites == old(shutdownWrites) + if watchesWrite then 0 else 1
    {
      if !watchesWrite {
        shutdownWrites := shutdownWrites + 1;
      }
    }

    method Shutdown()
      requires Valid()
      modifies this
      ensures Valid() && model == Step(old(model), Op.Shutdown)
    {
      StepInv(model, Op.Shutdown);
      if state == Connected {
        state := Disconnecting;
        ShutdownInLoop();
      }
      model := Step(model, Op.Shutdown);
    }

    /** A successful write of the POLLOUT callback: drop what was written, and finish up when the buffer drains. */
    method Wrote(n: nat)
      requires outputBuffer.Valid() && 0 < n <= outputBuffer.ReadableBytes() && watchesWrite
      modifies this`watchesWrite, this`notices, this`shutdownWrites, outputBuffer
      ensures outputBuffer.Valid() && outputBuffer.data == old(outputBuffer.data)
      ensures outputBuffer.Contents() == old(outputBuffer.Contents())[n..]
      ensures var drained := n == old(outputBuffer.ReadableBytes());
              && watchesWrite == !drained && notices == old(notices) + (if drained then [WriteComplete] else [])
              && shutdownWrites == old(shutdownWrites) + if drained && state == Disconnecting then 1 else 0
    {
      outputBuffer.Retrieve(n);
      if outputBuffer.ReadableBytes() == 0 {
        watchesWrite := false;
        notices := notices + [WriteComplete];
        if state == Disconnecting {
          ShutdownInLoop();
        }
      }
    }

    /** The POLLOUT callback: push more of the buffer out, and finish a deferred half-close when it drains. */
    method HandleWrite(res: WriteResult)
      requires Valid() && Possible(res, outputBuffer.ReadableBytes())
      modifies this, outputBuffer
      ensures Valid() && outputBuffer.data == old(outputBuffer.data)
      ensures model == Step(old(model), Op.HandleWrite(res))
    {
      WriteInv(model, res);
      WriteFields(model, res);
      assert Step(model, Op.HandleWrite(res)) == Write(model, res);
      hide Inv, Write, Step, Legal;
      if watchesWrite && res.Wrote? && 0 < res.n {
        Wrote(res.n);
      }
      model := Step(model, Op.HandleWrite(res));
    }

    /** The test of the state in another thread's send, whose data is copied. */
    method TestSend(t: Tid, data: seq<byte>)
      requires Valid() && t !in threads
      modifies this
      ensures Valid() && model == Step(old(model), ForeignSend(t, data))
    {
      StepInv(model, ForeignSend(t, data));
      if state == Connected {
        threads := threads[t := WillSend(data)];
      }
      model := Step(model, ForeignSend(t, data));
    }

    /** The test of the state in another thread's shutdown. */
    method TestShutdown(t: Tid)
      requires Valid() && t !in threads
      modifies this
      ensures Valid() && model == Step(old(model), ForeignShutdown(t))
    {
      StepInv(model, ForeignShutdown(t));
      if state == Connected {
        threads := threads[t := WillDisconnect];
      }
      model := Step(model, ForeignShutdown(t));
    }

    /** Whatever that thread does next, in whatever state it now finds the connection. */
    method Proceed(t: Tid)
      requires Valid() && t in threads
      modifies this
      ensures Valid() && model == Step(old(model), ForeignGo(t))
    {
      StepInv(model, ForeignGo(t));
      match threads[t] {
        case WillSend(data) =>
          queue := queue + [SendFunctor(data)];
          threads := threads - {t};
        case WillDisconnect =>
          state := Disconnecting;
          threads := threads[t := WillQueueShutdown];
        case WillQueueShutdown =>
          queue := queue + [ShutdownFunctor];
          threads := threads - {t};
      }
      model := Step(model, ForeignGo(t));
    }

    method HandleClose()
      requires Valid() && (state == Connected || state == Disconnecting)
      modifies this
      ensures Valid() && model == Step(old(model), Op.HandleClose)
    {
      StepInv(model, Op.HandleClose);
      state := Disconnected;
      watchesWrite := false;
      model := Step(model, Op.HandleClose);
    }

    method ConnectDestroyed()
      requires Valid()
      modifies this
      ensures Valid() && model == Step(old(model), Destroy)
    {
      StepInv(model, Destroy);
      if state == Connected {
        state := Disconnected;
        watchesWrite := false;
      }
      model := Step(model, Destroy);
    }

    /** The turn of a queued functor in the loop thread. */
    method RunQueued(res: WriteResult)
      requires Valid() && Legal(model, Op.RunQueued(res))
      modifies this, outputBuffer, outputBuffer.data
      ensures Valid() && (outputBuffer.data == old(outputBuffer.data) || fresh(outputBuffer.data))
      ensures model == Step(old(model), Op.RunQueued(res))
    {
      StepInv(model, Op.RunQueued(res));
      QueuedShutdown(model);
      var functor := queue[0];
      queue := queue[1..];
      match functor
      case SendFunctor(data) =>
        model := model.(queue := queue);
        SendInLoop(data, res);
      case ShutdownFunctor =>
        ShutdownInLoop();
        model := Step(model, Op.RunQueued(res));
    }

    method Perform(op: Op)
      requires Valid() && Legal(model, op)
      modifies this, outputBuffer, outputBuffer.data
      ensures Valid() && (outputBuffer.data == old(outputBuffer.data) || fresh(outputBuffer.data))
      ensures model == Step(old(model), op)
    {
      match op
      case Establish => ConnectEstablished();
      case Send(data, res) => Send(data, res);
      case ForeignSend(t, data) => TestSend(t, data);
      case Shutdown => Shutdown();
      case ForeignShutdown(t) => TestShutdown(t);
      case ForeignGo(t) => Proceed(t);
      case RunQueued(res) => RunQueued(res);
      case HandleWrite(res) => HandleWrite(res);
      case HandleClose => HandleClose();
      case Destroy => ConnectDestroyed();
    }

    /** Any legal run of calls and events takes the object where the transition system goes, so its laws hold here. */
    method Replay(ops: seq<Op>)
      requires Valid() && LegalRun(model, ops)
      modifies this, outputBuffer, outputBuffer.data
      ensures Valid() && (outputBuffer.data == old(outputBuffer.data) || fresh(outputBuffer.data))
      ensures model == Exec(old(model), ops)
      ensures model.kernel + outputBuffer.Contents() == model.accepted
      decreases |ops|
    {
      if ops != [] {
        Perform(ops[0]);
        Replay(ops[1..]);
      }
    }
  }
}
