/**
 * The output path of muduo/net/TcpConnection.cc against an adversarial kernel: short writes, EWOULDBLOCK, EPIPE and
 * other errors, back-pressure, deferred half-close, and sends and shutdowns queued by other threads.
 */
module TcpConnections {
  import opened Wire

  type Tid = nat

  datatype Phase = Connecting | Connected | Disconnecting | Disconnected

  /** What write(2) did: a count, or an errno. */
  datatype WriteResult = Wrote(n: nat) | WouldBlock | Pipe | OtherError

  /** What other threads leave in the loop's queue. */
  datatype Functor = SendFunctor(data: seq<byte>) | ShutdownFunctor

  /**
   * What another thread does next, having found the state Connected: queue its send, or set the state to Disconnecting
   * and then queue its shutdown. Anything may happen in between.
   */
  datatype Intent = WillSend(data: seq<byte>) | WillDisconnect | WillQueueShutdown

  /** User callbacks queued for later. */
  datatype Notice = WriteComplete | HighWater(size: nat)

  datatype State = State(
    phase: Phase,
    writing: bool,              // the channel watches POLLOUT
    out: seq<byte>,             // outputBuffer_
    highWaterMark: nat,
    queue: seq<Functor>,
    threads: map<Tid, Intent>,  // other threads inside send or shutdown
    notices: seq<Notice>,
    // history
    kernel: seq<byte>,          // bytes write(2) took
    accepted: seq<byte>,        // payloads given to sendInLoop, not refused with EPIPE nor given up after close
    shutdowns: nat,             // calls of shutdownWrite
    dirtyShutdown: bool,        // one of them with output still buffered
    lateWrite: bool,            // a write(2) after one of them
    closed: bool)               // handleClose, or connectDestroyed in its place, has run

  datatype Op =
    | Establish
    | Send(data: seq<byte>, res: WriteResult)
    | ForeignSend(t: Tid, data: seq<byte>)   // another thread's test of the state in send
    | Shutdown
    | ForeignShutdown(t: Tid)                // the same in shutdown
    | ForeignGo(t: Tid)                      // its next step
    | RunQueued(res: WriteResult)
    | HandleWrite(res: WriteResult)
    | HandleClose
    | Destroy

  /** write(2) never takes more than it was given. */
  predicate Possible(res: WriteResult, len: nat) {
    res.Wrote? ==> res.n <= len
  }

  predicate Legal(s: State, op: Op) {
    match op
    case Establish => s.phase.Connecting?
    case Send(data, res) => Possible(res, |data|)
    case ForeignSend(t, _) => t !in s.threads
    case ForeignShutdown(t) => t !in s.threads
    case ForeignGo(t) => t in s.threads
    case RunQueued(res) => s.queue != [] && (s.queue[0].SendFunctor? ==> Possible(res, |s.queue[0].data|))
    case HandleWrite(res) => Possible(res, |s.out|)
    case HandleClose => s.phase.Connected? || s.phase.Disconnecting?
    case _ => true
  }

  function Notify(s: State, notice: Notice): State {
    s.(notices := s.notices + [notice])
  }

  /** The second half of sendInLoop: buffer what the kernel did not take. */
  function Enqueue(s: State, rest: seq<byte>): State {
    if rest == [] then s
    else
      var size := |s.out| + |rest|;
      var t := if size >= s.highWaterMark && |s.out| < s.highWaterMark then Notify(s, HighWater(size)) else s;
      t.(out := s.out + rest, writing := true)
  }

  function SendInLoop(s: State, data: seq<byte>, res: WriteResult): State
    requires Possible(res, |data|)
  {
    if s.phase.Disconnected? then s
    else if !s.writing && s.out == [] then
      var t := s.(lateWrite := s.lateWrite || 0 < s.shutdowns);
      match res
      case Wrote(n) =>
        var u := t.(kernel := s.kernel + data[..n], accepted := s.accepted + data);
        if n == |data| then Notify(u, WriteComplete) else Enqueue(u, data[n..])
      case Pipe => t
      case _ => Enqueue(t.(accepted := s.accepted + data), data)
    else Enqueue(s.(accepted := s.accepted + data), data)
  }

  function ShutdownInLoop(s: State): State {
    if s.writing then s
    else s.(shutdowns := s.shutdowns + 1, dirtyShutdown := s.dirtyShutdown || s.out != [])
  }

  function Write(s: State, res: WriteResult): State
    requires Possible(res, |s.out|)
  {
    if !s.writing then s
    else
      var t := s.(lateWrite := s.lateWrite || 0 < s.shutdowns);
      if res.Wrote? && 0 < res.n then
        var u := t.(kernel := s.kernel + s.out[..res.n], out := s.out[res.n..]);
        if u.out == [] then
          var v := Notify(u.(writing := false), WriteComplete);
          if s.phase.Disconnecting? then ShutdownInLoop(v) else v
        else u
      else t
  }

  /** The next step of another thread; setState does not look at the state again. */
  function Proceed(s: State, t: Tid): State
    requires t in s.threads
  {
    match s.threads[t]
    case WillSend(data) => s.(threads := s.threads - {t}, queue := s.queue + [SendFunctor(data)])
    case WillDisconnect => s.(threads := s.threads[t := WillQueueShutdown], phase := Disconnecting)
    case WillQueueShutdown => s.(threads := s.threads - {t}, queue := s.queue + [ShutdownFunctor])
  }

  function Step(s: State, op: Op): State
    requires Legal(s, op)
  {
    match op
    case Establish => s.(phase := Connected)
    case Send(data, res) => if s.phase.Connected? then SendInLoop(s, data, res) else s
    case ForeignSend(t, data) => if s.phase.Connected? then s.(threads := s.threads[t := WillSend(data)]) else s
    case Shutdown => if s.phase.Connected? then ShutdownInLoop(s.(phase := Disconnecting)) else s
    case ForeignShutdown(t) => if s.phase.Connected? then s.(threads := s.threads[t := WillDisconnect]) else s
    case ForeignGo(t) => Proceed(s, t)
    case RunQueued(res) =>
      var t := s.(queue := s.queue[1..]);
      (match s.queue[0]
       case SendFunctor(data) => SendInLoop(t, data, res)
       case ShutdownFunctor => ShutdownInLoop(t))
    case HandleWrite(res) => Write(s, res)
    case HandleClose => s.(phase := Disconnected, writing := false, closed := true)
    case Destroy => if s.phase.Connected? then s.(phase := Disconnected, writing := false, closed := true) else s
  }

  function Initial(highWaterMark: nat): State {
    State(Connecting, false, [], highWaterMark, [], map[], [], [], [], 0, false, false, false)
  }

  ghost predicate LegalRun(s: State, ops: seq<Op>)
    decreases |ops|
  {
    ops == [] || (Legal(s, ops[0]) && LegalRun(Step(s, ops[0]), ops[1..]))
  }

  function Exec(s: State, ops: seq<Op>): State
    requires LegalRun(s, ops)
    decreases |ops|
  {
    if ops == [] then s else Exec(Step(s, ops[0]), ops[1..])
  }

  // ----- conservation, on every run -----

  ghost predicate Inv(s: State) {
    // every accepted byte is in the kernel or in the buffer, in order
    && s.kernel + s.out == s.accepted
    // POLLOUT is watched exactly while there is something to write, until the connection is closed
    && (!s.closed ==> s.writing == (s.out != []))
    && (s.phase.Disconnected? ==> s.closed && !s.writing)
    && (s.phase.Connecting? ==> !s.closed && s.out == [] && s.shutdowns == 0 && s.queue == [] && s.threads == map[])
    && (s.phase.Connected? ==> !s.closed && s.shutdowns == 0 && ShutdownFunctor !in s.queue && !Owed(s.threads))
    // a requested half-close is done, or will be done when the buffer drains or the functor is queued and runs
    && (s.phase.Disconnecting? && !s.closed ==> 0 < s.shutdowns || s.writing || ShutdownFunctor in s.queue || Owed(s.threads))
  }

  /** Some thread is about to queue its shutdown. */
  ghost predicate Owed(threads: map<Tid, Intent>) {
    exists t :: t in threads && threads[t].WillQueueShutdown?
  }

  lemma EnqueueFields(s: State, rest: seq<byte>)
    ensures var r, size := Enqueue(s, rest), |s.out| + |rest|;
            && r == s.(out := s.out + rest, writing := s.writing || rest != [], notices := r.notices)
            && r.notices == s.notices + if rest != [] && |s.out| < s.highWaterMark <= size then [HighWater(size)] else []
  {
  }

  /** Whether sendInLoop offers the payload to the kernel. */
  predicate Tried(s: State) {
    !s.phase.Disconnected? && !s.writing && s.out == []
  }

  /** The part of the payload the kernel takes, and the part that is buffered. */
  function Taken(s: State, data: seq<byte>, res: WriteResult): seq<byte>
    requires Possible(res, |data|)
  {
    if Tried(s) && res.Wrote? then data[..res.n] else []
  }

  function Kept(s: State, data: seq<byte>, res: WriteResult): seq<byte>
    requires Possible(res, |data|)
  {
    if s.phase.Disconnected? || (Tried(s) && res.Pipe?) then []
    else if Tried(s) && res.Wrote? then data[res.n..]
    else data
  }

  /** The notice a send queues, if any. */
  function SendNotice(s: State, data: seq<byte>, res: WriteResult): seq<Notice>
    requires Possible(res, |data|)
  {
    var size := |s.out| + |Kept(s, data, res)|;
    if Tried(s) && res.Wrote? && res.n == |data| then [WriteComplete]
    else if |s.out| < s.highWaterMark <= size then [HighWater(size)]
    else []
  }

  /** The state after a send, spelled out. */
  function Sent(s: State, data: seq<byte>, res: WriteResult): State
    requires Possible(res, |data|)
  {
    var taken, kept := Taken(s, data, res), Kept(s, data, res);
    s.(kernel := s.kernel + taken, out := s.out + kept, accepted := s.accepted + (taken + kept),
       writing := s.writing || kept != [], notices := s.notices + SendNotice(s, data, res),
       lateWrite := s.lateWrite || (Tried(s) && 0 < s.shutdowns))
  }

  lemma SendWithoutTrying(s: State, data: seq<byte>, res: WriteResult)
    requires Possible(res, |data|) && !Tried(s)
    ensures SendInLoop(s, data, res) == Sent(s, data, res)
  {
    hide Enqueue;
    assert s.kernel + [] == s.kernel && s.out + [] == s.out && s.accepted + ([] + []) == s.accepted && s.notices + [] == s.notices;
    if !s.phase.Disconnected? {
      assert [] + data == data;
      EnqueueFields(s.(accepted := s.accepted + data), data);
    }
  }

  lemma SendAllTaken(s: State, data: seq<byte>)
    requires Tried(s)
    ensures SendInLoop(s, data, Wrote(|data|)) == Sent(s, data, Wrote(|data|))
  {
    var n := |data|;
    assert data[n..] == [] && data[..n] == data && data + [] == data && s.out + [] == s.out;
  }

  lemma SendPartTaken(s: State, data: seq<byte>, n: nat)
    requires n < |data| && Tried(s)
    ensures SendInLoop(s, data, Wrote(n)) == Sent(s, data, Wrote(n))
  {
    hide Enqueue;
    var taken, kept := data[..n], data[n..];
    assert taken + kept == data;
    EnqueueFields(s.(lateWrite := s.lateWrite || 0 < s.shutdowns, kernel := s.kernel + taken, accepted := s.accepted + data), kept);
  }

  lemma SendRefused(s: State, data: seq<byte>, res: WriteResult)
    requires !res.Wrote? && Tried(s)
    ensures SendInLoop(s, data, res) == Sent(s, data, res)
  {
    hide Enqueue;
    assert s.kernel + [] == s.kernel && s.out + [] == s.out && s.accepted + ([] + []) == s.accepted && s.notices + [] == s.notices;
    assert [] + data == data;
    EnqueueFields(s.(lateWrite := s.lateWrite || 0 < s.shutdowns, accepted := s.accepted + data), data);
  }

  lemma SendInLoopFields(s: State, data: seq<byte>, res: WriteResult)
    requires Possible(res, |data|)
    ensures SendInLoop(s, data, res) == Sent(s, data, res)
  {
    hide SendInLoop, Sent;
    if !Tried(s) {
      SendWithoutTrying(s, data, res);
    } else if res == Wrote(|data|) {
      SendAllTaken(s, data);
    } else if res.Wrote? {
      SendPartTaken(s, data, res.n);
    } else {
      SendRefused(s, data, res);
    }
  }

  lemma NothingSent(s: State, data: seq<byte>, res: WriteResult)
    requires Possible(res, |data|) && s.phase.Disconnected?
    ensures SendInLoop(s, data, res) == s
  {
  }

  lemma SendInLoopInv(s: State, data: seq<byte>, res: WriteResult)
    requires Possible(res, |data|) && Inv(s) && !s.phase.Connecting?
    ensures Inv(SendInLoop(s, data, res)) && SendInLoop(s, data, res).phase == s.phase
  {
    hide SendInLoop, Owed;
    SendInLoopFields(s, data, res);
    var taken, kept := Taken(s, data, res), Kept(s, data, res);
    assert s.kernel + taken + (s.out + kept) == s.kernel + s.out + (taken + kept);
  }

  /** Whether a POLLOUT callback gets some bytes out. */
  predicate Moves(s: State, res: WriteResult) {
    s.writing && res.Wrote? && 0 < res.n
  }

  /** The state after it did: the first bytes gone, and the rest of the work done if they were the last. */
  function Moved(s: State, n: nat): State
    requires n <= |s.out|
  {
    var drained := n == |s.out|;
    s.(kernel := s.kernel + s.out[..n], out := s.out[n..], writing := !drained,
       notices := s.notices + if drained then [WriteComplete] else [],
       shutdowns := s.shutdowns + if drained && s.phase.Disconnecting? then 1 else 0,
       lateWrite := s.lateWrite || 0 < s.shutdowns)
  }

  lemma WriteFields(s: State, res: WriteResult)
    requires Possible(res, |s.out|)
    ensures Moves(s, res) ==> Write(s, res) == Moved(s, res.n)
    ensures !Moves(s, res) ==> Write(s, res) == s.(lateWrite := s.lateWrite || (s.writing && 0 < s.shutdowns))
  {
    assert s.notices + [] == s.notices;
  }

  lemma WriteInv(s: State, res: WriteResult)
    requires Possible(res, |s.out|) && Inv(s)
    ensures Inv(Write(s, res))
  {
    hide Write, Owed;
    WriteFields(s, res);
    if Moves(s, res) {
      assert s.kernel + s.out[..res.n] + s.out[res.n..] == s.kernel + s.out;
    }
  }

  lemma QueuedShutdown(s: State)
    requires s.queue != []
    ensures ShutdownFunctor in s.queue <==> s.queue[0].ShutdownFunctor? || ShutdownFunctor in s.queue[1..]
  {
    assert s.queue == [s.queue[0]] + s.queue[1..];
  }

  lemma StepInv(s: State, op: Op)
    requires Legal(s, op) && Inv(s)
    ensures Inv(Step(s, op))
  {
    match op
    case Send(data, res) =>
      if s.phase.Connected? { SendInLoopInv(s, data, res); }
    case RunQueued(res) =>
      QueuedShutdown(s);
      if s.queue[0].SendFunctor? { SendInLoopInv(s.(queue := s.queue[1..]), s.queue[0].data, res); }
    case HandleWrite(res) => WriteInv(s, res);
    case ForeignGo(t) => ProceedInv(s, t);
    case _ =>
  }

  lemma ProceedInv(s: State, t: Tid)
    requires Inv(s) && t in s.threads
    ensures Inv(Proceed(s, t))
  {
    var r := Proceed(s, t);
    if s.threads[t].WillDisconnect? {
      assert r.threads[t].WillQueueShutdown?;
    } else if s.threads[t].WillSend? && Owed(s.threads) {
      var u :| u in s.threads && s.threads[u].WillQueueShutdown?;
      assert u in r.threads && r.threads[u].WillQueueShutdown?;
    }
  }

  lemma {:induction false} RunInv(s: State, ops: seq<Op>)
    requires Inv(s) && LegalRun(s, ops)
    ensures Inv(Exec(s, ops))
    decreases |ops|
  {
    if ops != [] {
      StepInv(s, ops[0]);
      RunInv(Step(s, ops[0]), ops[1..]);
    }
  }

  /** For every pattern of write results, calls and interleavings: no accepted byte is lost, repeated or reordered. */
  lemma OutputConserved(highWaterMark: nat, ops: seq<Op>)
    requires LegalRun(Initial(highWaterMark), ops)
    ensures var s := Exec(Initial(highWaterMark), ops);
            && s.kernel + s.out == s.accepted
            && (!s.closed ==> (s.writing <==> s.out != []))
            && (s.phase.Disconnecting? && !s.closed && s.queue == [] && s.threads == map[] ==> 0 < s.shutdowns || s.writing)
  {
    RunInv(Initial(highWaterMark), ops);
  }

  /** The high-water callback fires exactly when a send lifts the buffer from below the mark to it or past it. */
  lemma HighWaterOnCrossing(s: State, data: seq<byte>, res: WriteResult)
    requires Possible(res, |data|) && Inv(s) && !s.phase.Connecting?
    ensures var r := SendInLoop(s, data, res);
            var fired := s.notices + [HighWater(|r.out|)] == r.notices;
            fired <==> |s.out| < s.highWaterMark <= |r.out|
  {
    hide SendInLoop;
    SendInLoopFields(s, data, res);
    var r := SendInLoop(s, data, res);
    if r.notices == s.notices + [WriteComplete] {
      assert r.notices[|s.notices|] == WriteComplete;
    } else if r.notices == s.notices {
      assert |s.notices + [HighWater(|r.out|)]| == |r.notices| + 1;
    }
  }

  /** The write-complete callback fires exactly when a write leaves nothing behind. */
  lemma WriteCompleteOnDrain(s: State, res: WriteResult)
    requires Possible(res, |s.out|) && Inv(s)
    ensures var r := Write(s, res);
            && (r.notices == s.notices + [WriteComplete] <==> s.out != [] && s.writing && r.out == [])
            && (r.notices == s.notices || r.notices == s.notices + [WriteComplete])
  {
    assert |s.notices + [WriteComplete]| == |s.notices| + 1;
  }

  // ----- the discipline of half-close -----

  /** shutdownWrite at most once, never with output buffered, and no write(2) after it. */
  predicate Disciplined(s: State) {
    s.shutdowns <= 1 && !s.dirtyShutdown && !s.lateWrite
  }

  /** Once half-closed, nothing is left to write and nothing will be. */
  predicate HalfClosed(s: State) {
    0 < s.shutdowns ==> (s.phase.Disconnecting? || s.phase.Disconnected?) && !s.writing && s.out == []
  }

  /** A queued functor that comes too late: a send after half-close, or a second or dirty shutdown. */
  predicate Late(s: State, op: Op) {
    op.RunQueued? && s.queue != [] &&
    match s.queue[0]
    case SendFunctor(_) => 0 < s.shutdowns && !s.phase.Disconnected?
    case ShutdownFunctor => !s.writing && (0 < s.shutdowns || s.out != [])
  }

  lemma StepDiscipline(s: State, op: Op)
    requires Legal(s, op) && Inv(s) && Disciplined(s) && HalfClosed(s)
    ensures Disciplined(Step(s, op)) <==> !Late(s, op)
    ensures Disciplined(Step(s, op)) ==> HalfClosed(Step(s, op))
  {
    hide SendInLoop, Write, Owed;
    match op
    case Send(data, res) => SendInLoopFields(s, data, res);
    case RunQueued(res) =>
      if s.queue[0].SendFunctor? { SendInLoopFields(s.(queue := s.queue[1..]), s.queue[0].data, res); }
    case HandleWrite(res) => WriteFields(s, res);
    case _ =>
  }

  /** Lapses stay on the record. */
  lemma StepKeepsLapse(s: State, op: Op)
    requires Legal(s, op) && !Disciplined(s)
    ensures !Disciplined(Step(s, op))
  {
    hide SendInLoop, Write;
    match op
    case Send(data, res) => SendInLoopFields(s, data, res);
    case RunQueued(res) =>
      if s.queue[0].SendFunctor? { SendInLoopFields(s.(queue := s.queue[1..]), s.queue[0].data, res); }
    case HandleWrite(res) => WriteFields(s, res);
    case _ =>
  }

  ghost predicate NoLateFunctor(s: State, ops: seq<Op>)
    requires LegalRun(s, ops)
    decreases |ops|
  {
    ops == [] || (!Late(s, ops[0]) && NoLateFunctor(Step(s, ops[0]), ops[1..]))
  }

  lemma {:induction false} RunKeepsLapse(s: State, ops: seq<Op>)
    requires LegalRun(s, ops) && !Disciplined(s)
    ensures !Disciplined(Exec(s, ops))
    decreases |ops|
  {
    if ops != [] {
      StepKeepsLapse(s, ops[0]);
      RunKeepsLapse(Step(s, ops[0]), ops[1..]);
    }
  }

  lemma {:induction false} DisciplineIffNoLateFunctor(s: State, ops: seq<Op>)
    requires LegalRun(s, ops) && Inv(s) && Disciplined(s) && HalfClosed(s)
    ensures Disciplined(Exec(s, ops)) <==> NoLateFunctor(s, ops)
    decreases |ops|
  {
    if ops != [] {
      var r := Step(s, ops[0]);
      StepInv(s, ops[0]);
      StepDiscipline(s, ops[0]);
      if Late(s, ops[0]) {
        RunKeepsLapse(r, ops[1..]);
      } else {
        DisciplineIffNoLateFunctor(r, ops[1..]);
      }
    }
  }

  predicate InLoopThread(op: Op) {
    !op.ForeignSend? && !op.ForeignShutdown? && !op.ForeignGo?
  }

  lemma {:induction false} LoopThreadNeverLate(s: State, ops: seq<Op>)
    requires LegalRun(s, ops) && s.queue == [] && forall op :: op in ops ==> InLoopThread(op)
    ensures NoLateFunctor(s, ops)
    decreases |ops|
  {
    if ops != [] {
      assert ops[0] in ops;
      assert forall op :: op in ops[1..] ==> op in ops;
      LoopThreadNeverLate(Step(s, ops[0]), ops[1..]);
    }
  }

  /**
   * The half-close promise holds on a run exactly when no queued functor of it runs too late; in particular whenever
   * send and shutdown are called in the loop thread only.
   */
  lemma HalfCloseDiscipline(highWaterMark: nat, ops: seq<Op>)
    requires LegalRun(Initial(highWaterMark), ops)
    ensures Disciplined(Exec(Initial(highWaterMark), ops)) <==> NoLateFunctor(Initial(highWaterMark), ops)
    ensures (forall op :: op in ops ==> InLoopThread(op)) ==> Disciplined(Exec(Initial(highWaterMark), ops))
  {
    DisciplineIffNoLateFunctor(Initial(highWaterMark), ops);
    if forall op :: op in ops ==> InLoopThread(op) {
      LoopThreadNeverLate(Initial(highWaterMark), ops);
    }
  }

  lemma ExecCons(s: State, op: Op, rest: seq<Op>)
    requires Legal(s, op) && LegalRun(Step(s, op), rest)
    ensures LegalRun(s, [op] + rest) && Exec(s, [op] + rest) == Exec(Step(s, op), rest)
  {
    assert ([op] + rest)[1..] == rest;
  }

  /** A send queued by another thread just before the loop thread shuts down is written after the half-close. */
  lemma CrossThreadSendWritesLate(b: byte)
    ensures var tail := [Shutdown] + ([RunQueued(Pipe)] + []);
            var ops := [Establish] + ([ForeignSend(0, [b])] + ([ForeignGo(0)] + tail));
            LegalRun(Initial(1), ops) && Exec(Initial(1), ops).lateWrite
  {
    var s1 := Step(Initial(1), Establish);
    var s2 := Step(s1, ForeignSend(0, [b]));
    var s3 := Step(s2, ForeignGo(0));
    var s4 := Step(s3, Shutdown);
    var tail := [Shutdown] + ([RunQueued(Pipe)] + []);
    ExecCons(s4, RunQueued(Pipe), []);
    ExecCons(s3, Shutdown, [RunQueued(Pipe)] + []);
    ExecCons(s2, ForeignGo(0), tail);
    ExecCons(s1, ForeignSend(0, [b]), [ForeignGo(0)] + tail);
    ExecCons(Initial(1), Establish, [ForeignSend(0, [b])] + ([ForeignGo(0)] + tail));
  }

  lemma SetDrainQueueRun(s: State)
    requires s.phase.Connected? && s.writing && |s.out| == 1 && s.shutdowns == 0 && s.queue == []
    requires 0 in s.threads && s.threads[0].WillDisconnect?
    ensures var ops := [ForeignGo(0)] + ([ForeignGo(0)] + ([HandleWrite(Wrote(1))] + ([RunQueued(Pipe)] + [])));
            LegalRun(s, ops) && Exec(s, ops).shutdowns == 2
  {
    var s1 := Step(s, ForeignGo(0));
    var s2 := Step(s1, ForeignGo(0));
    var s3 := Step(s2, HandleWrite(Wrote(1)));
    ExecCons(s3, RunQueued(Pipe), []);
    ExecCons(s2, HandleWrite(Wrote(1)), [RunQueued(Pipe)] + []);
    var last := [HandleWrite(Wrote(1))] + ([RunQueued(Pipe)] + []);
    ExecCons(s1, ForeignGo(0), last);
    ExecCons(s, ForeignGo(0), [ForeignGo(0)] + last);
  }

  /** A shutdown by another thread can half-close twice: once when the buffer drains, once when its functor runs. */
  lemma CrossThreadShutdownTwice(b: byte)
    ensures var tail := [ForeignGo(0)] + ([ForeignGo(0)] + ([HandleWrite(Wrote(1))] + ([RunQueued(Pipe)] + [])));
            var ops := [Establish] + ([Send([b], WouldBlock)] + ([ForeignShutdown(0)] + tail));
            LegalRun(Initial(1), ops) && Exec(Initial(1), ops).shutdowns == 2
  {
    var s1 := Step(Initial(1), Establish);
    var s2 := Step(s1, Send([b], WouldBlock));
    var s3 := Step(s2, ForeignShutdown(0));
    SetDrainQueueRun(s3);
    hide LegalRun, Exec;
    var tail := [ForeignGo(0)] + ([ForeignGo(0)] + ([HandleWrite(Wrote(1))] + ([RunQueued(Pipe)] + [])));
    ExecCons(s2, ForeignShutdown(0), tail);
    ExecCons(s1, Send([b], WouldBlock), [ForeignShutdown(0)] + tail);
    ExecCons(Initial(1), Establish, [Send([b], WouldBlock)] + ([ForeignShutdown(0)] + tail));
  }

  // ----- closing is final, or not -----

  /** A closed connection stays disconnected and watches for nothing. */
  predicate Final(s: State) {
    s.closed ==> s.phase.Disconnected? && !s.writing
  }

  /** Another thread that tested the state before the close sets it after the close. */
  predicate Reopens(s: State, op: Op) {
    op.ForeignGo? && op.t in s.threads && s.threads[op.t].WillDisconnect? && s.phase.Disconnected?
  }

  lemma StepFinal(s: State, op: Op)
    requires Legal(s, op) && Inv(s) && Final(s)
    ensures Final(Step(s, op)) <==> !Reopens(s, op)
  {
  }

  ghost predicate AlwaysFinal(s: State, ops: seq<Op>)
    requires LegalRun(s, ops)
    decreases |ops|
  {
    Final(s) && (ops == [] || AlwaysFinal(Step(s, ops[0]), ops[1..]))
  }

  ghost predicate NoReopening(s: State, ops: seq<Op>)
    requires LegalRun(s, ops)
    decreases |ops|
  {
    ops == [] || (!Reopens(s, ops[0]) && NoReopening(Step(s, ops[0]), ops[1..]))
  }

  lemma {:induction false} FinalIff(s: State, ops: seq<Op>)
    requires LegalRun(s, ops) && Inv(s) && Final(s)
    ensures AlwaysFinal(s, ops) <==> NoReopening(s, ops)
    decreases |ops|
  {
    if ops != [] {
      StepInv(s, ops[0]);
      StepFinal(s, ops[0]);
      if !Reopens(s, ops[0]) {
        FinalIff(Step(s, ops[0]), ops[1..]);
      } else {
        assert !AlwaysFinal(Step(s, ops[0]), ops[1..]);
      }
    }
  }

  lemma {:induction false} LoopThreadNeverReopens(s: State, ops: seq<Op>)
    requires LegalRun(s, ops) && forall op :: op in ops ==> InLoopThread(op)
    ensures NoReopening(s, ops)
    decreases |ops|
  {
    if ops != [] {
      assert ops[0] in ops;
      assert forall op :: op in ops[1..] ==> op in ops;
      LoopThreadNeverReopens(Step(s, ops[0]), ops[1..]);
    }
  }

  /**
   * A closed connection stays closed in every state of a run exactly when no other thread's shutdown sets the state after
   * the close; in particular whenever send and shutdown are called in the loop thread only.
   */
  lemma ClosedIsFinalIff(highWaterMark: nat, ops: seq<Op>)
    requires LegalRun(Initial(highWaterMark), ops)
    ensures AlwaysFinal(Initial(highWaterMark), ops) <==> NoReopening(Initial(highWaterMark), ops)
    ensures (forall op :: op in ops ==> InLoopThread(op)) ==> AlwaysFinal(Initial(highWaterMark), ops)
  {
    FinalIff(Initial(highWaterMark), ops);
    if forall op :: op in ops ==> InLoopThread(op) {
      LoopThreadNeverReopens(Initial(highWaterMark), ops);
    }
  }

  lemma SetQueueRun(s: State, b: byte)
    requires s.phase.Disconnected? && s.closed && !s.writing && s.out == [] && s.queue == []
    requires 0 in s.threads && s.threads[0] == WillSend([b]) && 1 in s.threads && s.threads[1].WillDisconnect?
    ensures var ops := [ForeignGo(1)] + ([ForeignGo(0)] + ([RunQueued(Wrote(1))] + []));
            && LegalRun(s, ops)
            && var r := Exec(s, ops); r.closed && r.phase.Disconnecting? && r.kernel == s.kernel + [b]
  {
    var s1 := Step(s, ForeignGo(1));
    var s2 := Step(s1, ForeignGo(0));
    ExecCons(s2, RunQueued(Wrote(1)), []);
    ExecCons(s1, ForeignGo(0), [RunQueued(Wrote(1))] + []);
    ExecCons(s, ForeignGo(1), [ForeignGo(0)] + ([RunQueued(Wrote(1))] + []));
  }

  /** Two threads test, the peer closes, one sets the state and the other queues its send: it is written after the close. */
  lemma StaleShutdownReopens(b: byte)
    ensures var tail := [ForeignGo(1)] + ([ForeignGo(0)] + ([RunQueued(Wrote(1))] + []));
            var ops := [Establish] + ([ForeignSend(0, [b])] + ([ForeignShutdown(1)] + ([HandleClose] + tail)));
            && LegalRun(Initial(1), ops)
            && var s := Exec(Initial(1), ops); s.closed && s.phase.Disconnecting? && s.kernel == [b]
  {
    var s1 := Step(Initial(1), Establish);
    var s2 := Step(s1, ForeignSend(0, [b]));
    var s3 := Step(s2, ForeignShutdown(1));
    var s4 := Step(s3, HandleClose);
    SetQueueRun(s4, b);
    hide LegalRun, Exec;
    var tail := [ForeignGo(1)] + ([ForeignGo(0)] + ([RunQueued(Wrote(1))] + []));
    ExecCons(s3, HandleClose, tail);
    ExecCons(s2, ForeignShutdown(1), [HandleClose] + tail);
    ExecCons(s1, ForeignSend(0, [b]), [ForeignShutdown(1)] + ([HandleClose] + tail));
    ExecCons(Initial(1), Establish, [ForeignSend(0, [b])] + ([ForeignShutdown(1)] + ([HandleClose] + tail)));
  }

  // ----- from the calls to the record -----

  /** What of a payload given to sendInLoop counts as sent: all of it, unless closed or refused with EPIPE. */
  function Paid(s: State, data: seq<byte>, res: WriteResult): seq<byte> {
    if s.phase.Disconnected? || (res.Pipe? && !s.writing && s.out == []) then [] else data
  }

  /** The payload a step sends: the loop thread's own while connected, or a queued one whose turn it is. */
  function SentBy(s: State, op: Op): seq<byte>
    requires Legal(s, op)
  {
    match op
    case Send(data, res) => if s.phase.Connected? then Paid(s, data, res) else []
    case RunQueued(res) => if s.queue[0].SendFunctor? then Paid(s, s.queue[0].data, res) else []
    case _ => []
  }

  /** The bytes write(2) takes in a step: of the payload when nothing is buffered, of the buffer in the POLLOUT callback. */
  function WrittenBy(s: State, op: Op): seq<byte>
    requires Legal(s, op)
  {
    var direct := !s.phase.Disconnected? && !s.writing && s.out == [];
    match op
    case Send(data, res) => if s.phase.Connected? && direct && res.Wrote? then data[..res.n] else []
    case RunQueued(res) => if s.queue[0].SendFunctor? && direct && res.Wrote? then s.queue[0].data[..res.n] else []
    case HandleWrite(res) => if s.writing && res.Wrote? then s.out[..res.n] else []
    case _ => []
  }

  lemma StepSends(s: State, op: Op)
    requires Legal(s, op)
    ensures Step(s, op).accepted == s.accepted + SentBy(s, op)
    ensures Step(s, op).kernel == s.kernel + WrittenBy(s, op)
  {
    hide SendInLoop, Write;
    assert s.accepted + [] == s.accepted && s.kernel + [] == s.kernel;
    match op
    case Send(data, res) => PayloadSplits(s, data, res);
    case RunQueued(res) =>
      if s.queue[0].SendFunctor? { PayloadSplits(s.(queue := s.queue[1..]), s.queue[0].data, res); }
    case HandleWrite(res) => WriteTakes(s, res);
    case _ =>
  }

  lemma WriteTakes(s: State, res: WriteResult)
    requires Possible(res, |s.out|)
    ensures var r := Write(s, res);
            r.accepted == s.accepted && r.kernel == s.kernel + if s.writing && res.Wrote? then s.out[..res.n] else []
  {
    hide Write;
    WriteFields(s, res);
    assert s.kernel + [] == s.kernel && s.out[..0] == [];
  }

  lemma PayloadSplits(s: State, data: seq<byte>, res: WriteResult)
    requires Possible(res, |data|)
    ensures var r := SendInLoop(s, data, res);
            && r.accepted == s.accepted + Paid(s, data, res)
            && r.kernel == s.kernel + if Tried(s) && res.Wrote? then data[..res.n] else []
  {
    hide SendInLoop;
    SendInLoopFields(s, data, res);
    if res.Wrote? {
      assert data[..res.n] + data[res.n..] == data;
    }
    assert [] + data == data;
  }

  function AllSent(s: State, ops: seq<Op>): seq<byte>
    requires LegalRun(s, ops)
    decreases |ops|
  {
    if ops == [] then [] else SentBy(s, ops[0]) + AllSent(Step(s, ops[0]), ops[1..])
  }

  function AllWritten(s: State, ops: seq<Op>): seq<byte>
    requires LegalRun(s, ops)
    decreases |ops|
  {
    if ops == [] then [] else WrittenBy(s, ops[0]) + AllWritten(Step(s, ops[0]), ops[1..])
  }

  lemma {:induction false} RunSends(s: State, ops: seq<Op>)
    requires LegalRun(s, ops)
    ensures Exec(s, ops).accepted == s.accepted + AllSent(s, ops) && Exec(s, ops).kernel == s.kernel + AllWritten(s, ops)
    decreases |ops|
  {
    hide Step, Legal, SentBy, WrittenBy;
    if ops == [] {
      assert s.accepted + [] == s.accepted && s.kernel + [] == s.kernel;
    } else {
      var r := Step(s, ops[0]);
      StepSends(s, ops[0]);
      RunSends(r, ops[1..]);
      assert s.accepted + SentBy(s, ops[0]) + AllSent(r, ops[1..]) == s.accepted + (SentBy(s, ops[0]) + AllSent(r, ops[1..]));
      assert s.kernel + WrittenBy(s, ops[0]) + AllWritten(r, ops[1..]) == s.kernel + (WrittenBy(s, ops[0]) + AllWritten(r, ops[1..]));
    }
  }

  /** What write(2) took, in order, and what is still buffered are together the payloads of all the calls, in order. */
  lemma EveryPayloadIsKept(highWaterMark: nat, ops: seq<Op>)
    requires LegalRun(Initial(highWaterMark), ops)
    ensures var s0 := Initial(highWaterMark); AllWritten(s0, ops) + Exec(s0, ops).out == AllSent(s0, ops)
  {
    var s0 := Initial(highWaterMark);
    OutputConserved(highWaterMark, ops);
    RunSends(s0, ops);
    assert [] + AllWritten(s0, ops) == AllWritten(s0, ops) && [] + AllSent(s0, ops) == AllSent(s0, ops);
  }

  /** In particular a send on a connected socket lengthens the stream by its payload, backlog or not. */
  lemma SendLengthensStream(s: State, data: seq<byte>, res: WriteResult)
    requires Inv(s) && Legal(s, Send(data, res)) && s.phase.Connected? && !(res.Pipe? && s.out == [])
    ensures var r := Step(s, Send(data, res)); r.kernel + r.out == s.kernel + s.out + data
  {
    StepInv(s, Send(data, res));
    StepSends(s, Send(data, res));
  }

  /** A write of the POLLOUT callback drops from the buffer what the kernel took, and stops watching when it is empty. */
  lemma WriteDropsTaken(s: State, res: WriteResult)
    requires Inv(s) && Legal(s, HandleWrite(res))
    ensures var r := Step(s, HandleWrite(res));
            && r.out == (if s.writing && res.Wrote? then s.out[res.n..] else s.out)
            && (s.writing && !s.closed ==> (r.writing <==> r.out != []))
            && (r.shutdowns != s.shutdowns <==> s.phase.Disconnecting? && s.writing && res.Wrote? && 0 < res.n && r.out == [])
  {
    hide Write;
    WriteFields(s, res);
    assert s.out[0..] == s.out;
  }

  /** A send reports completion exactly when the kernel takes all of it at once. */
  lemma SendCompletes(s: State, data: seq<byte>, res: WriteResult)
    requires Possible(res, |data|)
    ensures var r := SendInLoop(s, data, res);
            (r.notices == s.notices + [WriteComplete] <==>
              !s.phase.Disconnected? && !s.writing && s.out == [] && res == Wrote(|data|))
    ensures var r := SendInLoop(s, data, res); s.notices <= r.notices && |r.notices| <= |s.notices| + 1
  {
    hide SendInLoop;
    SendInLoopFields(s, data, res);
    var notice := SendNotice(s, data, res);
    assert notice != [] ==> (s.notices + notice)[|s.notices|] == notice[0];
    assert (s.notices + [WriteComplete])[|s.notices|] == WriteComplete;
  }

  /** shutdown() in the loop thread half-closes at once with an empty buffer, and leaves it to the drain otherwise. */
  lemma ShutdownOutcome(s: State)
    requires Inv(s) && s.phase.Connected?
    ensures var r := Step(s, Shutdown);
            && r.phase.Disconnecting? && r.out == s.out && r.writing == s.writing && r.kernel == s.kernel
            && r.shutdowns == if s.out == [] then s.shutdowns + 1 else s.shutdowns
  {
  }

  /** Establishing connects; closing, or destroying while connected, disconnects for good and keeps what is buffered. */
  lemma OpenAndClose(s: State)
    ensures s.phase.Connecting? ==> Step(s, Establish) == s.(phase := Connected)
    ensures s.phase.Connected? || s.phase.Disconnecting? ==>
              var r := Step(s, HandleClose);
              r.phase.Disconnected? && r.closed && !r.writing && r.out == s.out && r.kernel == s.kernel && r.queue == s.queue
    ensures s.phase.Connected? ==> Step(s, Destroy) == Step(s, HandleClose)
    ensures !s.phase.Connected? ==> Step(s, Destroy) == s
  {
  }

  /** A queued shutdown half-closes unless output is pending, whatever else has happened. */
  lemma QueuedShutdownOutcome(s: State, res: WriteResult)
    requires Legal(s, RunQueued(res)) && s.queue[0].ShutdownFunctor?
    ensures var r := Step(s, RunQueued(res));
            r.shutdowns == (if s.writing then s.shutdowns else s.shutdowns + 1) && r.phase == s.phase && r.out == s.out
  {
  }

  // ----- the queue between the threads -----

  /** The second and third step of another thread's shutdown: set the state whatever it is, then queue. */
  lemma ProceedOutcome(s: State, t: Tid)
    requires Legal(s, ForeignGo(t))
    ensures var r := Step(s, ForeignGo(t));
            && (s.threads[t].WillDisconnect? ==> r == s.(phase := Disconnecting, threads := s.threads[t := WillQueueShutdown]))
            && (!s.threads[t].WillDisconnect? ==> t !in r.threads && r.phase == s.phase)
  {
  }

  /** A thread keeps what it set out to do until its next step, and only a connected socket lets it set out. */
  lemma IntentKept(s: State, op: Op, t: Tid)
    requires Legal(s, op)
    ensures var r := Step(s, op);
            && (op == ForeignShutdown(t) && s.phase.Connected? ==> t in r.threads && r.threads[t] == WillDisconnect)
            && (op.ForeignSend? && op.t == t && s.phase.Connected? ==> t in r.threads && r.threads[t] == WillSend(op.data))
            && (t in s.threads && op != ForeignGo(t) ==> t in r.threads && r.threads[t] == s.threads[t])
            && (t in r.threads && t !in s.threads ==> s.phase.Connected? && (op == ForeignShutdown(t) || (op.ForeignSend? && op.t == t)))
  {
    hide SendInLoop, Write;
    match op
    case Send(data, res) => SendInLoopFields(s, data, res);
    case RunQueued(res) =>
      if s.queue[0].SendFunctor? { SendInLoopFields(s.(queue := s.queue[1..]), s.queue[0].data, res); }
    case HandleWrite(res) => WriteFields(s, res);
    case _ =>
  }

  /** What a step puts into the loop's queue, and what it takes out. */
  function Puts(s: State, op: Op): seq<Functor>
    requires Legal(s, op)
  {
    if !op.ForeignGo? then []
    else match s.threads[op.t]
      case WillSend(data) => [SendFunctor(data)]
      case WillDisconnect => []
      case WillQueueShutdown => [ShutdownFunctor]
  }

  function Takes(s: State, op: Op): seq<Functor>
    requires Legal(s, op)
  {
    if op.RunQueued? then [s.queue[0]] else []
  }

  lemma StepQueues(s: State, op: Op)
    requires Legal(s, op)
    ensures Takes(s, op) + Step(s, op).queue == s.queue + Puts(s, op)
  {
    hide SendInLoop, Write;
    assert [] + s.queue == s.queue + [];
    match op
    case Send(data, res) => SendInLoopFields(s, data, res);
    case RunQueued(res) =>
      assert s.queue == [s.queue[0]] + s.queue[1..];
      if s.queue[0].SendFunctor? { SendInLoopFields(s.(queue := s.queue[1..]), s.queue[0].data, res); }
    case HandleWrite(res) => WriteFields(s, res);
    case _ =>
  }

  function AllPuts(s: State, ops: seq<Op>): seq<Functor>
    requires LegalRun(s, ops)
    decreases |ops|
  {
    if ops == [] then [] else Puts(s, ops[0]) + AllPuts(Step(s, ops[0]), ops[1..])
  }

  function AllTakes(s: State, ops: seq<Op>): seq<Functor>
    requires LegalRun(s, ops)
    decreases |ops|
  {
    if ops == [] then [] else Takes(s, ops[0]) + AllTakes(Step(s, ops[0]), ops[1..])
  }

  lemma {:induction false} RunQueues(s: State, ops: seq<Op>)
    requires LegalRun(s, ops)
    ensures AllTakes(s, ops) + Exec(s, ops).queue == s.queue + AllPuts(s, ops)
    decreases |ops|
  {
    hide Step, Legal, Puts, Takes;
    if ops == [] {
      assert [] + s.queue == s.queue + [];
    } else {
      var r := Step(s, ops[0]);
      StepQueues(s, ops[0]);
      RunQueues(r, ops[1..]);
      var a, b, c, d := Takes(s, ops[0]), AllTakes(r, ops[1..]), Puts(s, ops[0]), AllPuts(r, ops[1..]);
      assert a + b + Exec(s, ops).queue == a + (b + Exec(s, ops).queue) == (a + r.queue) + d == s.queue + (c + d);
    }
  }

  /** Sends and shutdowns of other threads run in the order they were queued, each once. */
  lemma QueueInOrder(highWaterMark: nat, ops: seq<Op>)
    requires LegalRun(Initial(highWaterMark), ops)
    ensures var s0 := Initial(highWaterMark); AllTakes(s0, ops) + Exec(s0, ops).queue == AllPuts(s0, ops)
  {
    RunQueues(Initial(highWaterMark), ops);
    assert [] + AllPuts(Initial(highWaterMark), ops) == AllPuts(Initial(highWaterMark), ops);
  }
}
