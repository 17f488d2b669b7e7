/**
 * The double-buffered asynchronous logger of muduo/base/AsyncLogging.cc: any number of appenders and one writer thread.
 * Each lock-protected region is one step, so a run of steps is an interleaving.
 */
module AsyncLogging {
  import opened Wire

  const LARGE_BUFFER: nat := 4000 * 1000
  const MAX_BATCH: nat := 25

  /** A buffer is the text in it. */
  type Text = seq<byte>

  /** What reaches the log file: text, or the notice that buffers were dropped. */
  datatype Item = Char(b: byte) | Dropped(count: nat)

  datatype Pc =
    | Head                                   // at while (running_)
    | Entered                                // running_ was seen true, the lock is not yet taken
    | Waiting                                // in cond_.waitForSeconds
    | Grabbed(batch: seq<Text>)              // buffersToWrite filled, its size not yet looked at
    | Writing(batch: seq<Text>, next: nat)
    | Stopped

  datatype State = State(
    running: bool,
    current: Text,
    next: Option<Text>,
    buffers: seq<Text>,
    pc: Pc,
    spare1: Option<Text>,
    spare2: Option<Text>,
    // history
    file: seq<Item>,
    appended: Text)

  datatype Op =
    | Append(line: Text)
    | Stop
    | Exit
    | Enter
    | Wait
    | Grab
    | Trim
    | WriteOne
    | Recycle

  /** FixedBuffer::append drops what does not fit with a byte to spare. */
  function FixedAppend(buf: Text, line: Text): Text {
    if |buf| + |line| < LARGE_BUFFER then buf + line else buf
  }

  function AppendLine(s: State, line: Text): State {
    var t := s.(appended := s.appended + line);
    if |s.current| + |line| < LARGE_BUFFER then t.(current := FixedAppend(s.current, line))
    else
      var empty := match s.next
        case Some(buf) => buf
        case None => [];
      t.(buffers := s.buffers + [s.current], current := FixedAppend(empty, line), next := None)
  }

  /** The writer's critical section: take everything, leave the spares. */
  function GrabAll(s: State): State
    requires s.spare1.Some?
  {
    var t := s.(pc := Grabbed(s.buffers + [s.current]), current := s.spare1.value, spare1 := None, buffers := []);
    if s.next.None? then t.(next := s.spare2, spare2 := None) else t
  }

  function TrimBatch(s: State): State
    requires s.pc.Grabbed?
  {
    if |s.pc.batch| > MAX_BATCH
    then s.(file := s.file + [Dropped(|s.pc.batch| - 2)], pc := Writing(s.pc.batch[..2], 0))
    else s.(pc := Writing(s.pc.batch, 0))
  }

  /** ptr_vector::pop_back, whose assertion is that there is something to pop. */
  function PopBack(kept: seq<Text>): seq<Text>
    requires kept != []
  {
    kept[..|kept| - 1]
  }

  /** Refill the spares from the written buffers, first spare from the back. */
  function RecycleBuffers(s: State): State
    requires Inv(s) && s.pc.Writing?
  {
    var kept0 := if |s.pc.batch| > 2 then s.pc.batch[..2] else s.pc.batch;
    var kept1 := if s.spare1.None? then PopBack(kept0) else kept0;
    var _ := if s.spare2.None? then PopBack(kept1) else kept1;
    s.(pc := Head,
       spare1 := if s.spare1.None? then Some([]) else s.spare1,
       spare2 := if s.spare2.None? then Some([]) else s.spare2)
  }

  predicate Legal(s: State, op: Op) {
    match op
    case Append(_) => true
    case Stop => true
    case Exit => s.pc.Head? && !s.running
    case Enter => s.pc.Head? && s.running
    case Wait => s.pc.Entered? && s.buffers == []
    case Grab => (s.pc.Entered? && s.buffers != []) || s.pc.Waiting?
    case Trim => s.pc.Grabbed?
    case WriteOne => s.pc.Writing? && s.pc.next < |s.pc.batch|
    case Recycle => s.pc.Writing? && s.pc.next == |s.pc.batch|
  }

  function Step(s: State, op: Op): (r: State)
    requires Inv(s) && Legal(s, op)
    ensures Inv(r)
  {
    match op
    case Append(line) => AppendLine(s, line)
    case Stop => s.(running := false)
    case Exit => s.(pc := Stopped)
    case Enter => s.(pc := Entered)
    case Wait => s.(pc := Waiting)
    case Grab => GrabAll(s)
    case Trim => TrimBatch(s)
    case WriteOne => s.(file := s.file + Items(s.pc.batch[s.pc.next]), pc := Writing(s.pc.batch, s.pc.next + 1))
    case Recycle => RecycleBuffers(s)
  }

  const INITIAL := State(true, [], Some([]), [], Head, Some([]), Some([]), [], [])

  /**
   * A missing reserve means a full buffer is waiting, so the writer always finds enough buffers to refill both spares,
   * and at its loop head both spares are there and empty.
   */
  ghost predicate Inv(s: State) {
    && |s.current| < LARGE_BUFFER
    && (s.next.None? ==> s.buffers != [])
    && (s.next.Some? ==> s.next.value == [])
    && match s.pc
       case Grabbed(batch) => HalfEmpty(s, batch)
       case Writing(batch, next) => HalfEmpty(s, batch) && next <= |batch|
       case _ => s.spare1 == Some([]) && s.spare2 == Some([])
  }

  ghost predicate HalfEmpty(s: State, batch: seq<Text>) {
    s.spare1.None? && batch != [] && (s.spare2 == Some([]) || (s.spare2.None? && 2 <= |batch|))
  }

  ghost predicate LegalRun(s: State, ops: seq<Op>)
    requires Inv(s)
    decreases |ops|
  {
    ops == [] || (Legal(s, ops[0]) && LegalRun(Step(s, ops[0]), ops[1..]))
  }

  function Exec(s: State, ops: seq<Op>): (r: State)
    requires Inv(s) && LegalRun(s, ops)
    ensures Inv(r)
    decreases |ops|
  {
    if ops == [] then s else Exec(Step(s, ops[0]), ops[1..])
  }

  // ----- conservation -----

  function Items(t: Text): (r: seq<Item>)
    ensures |r| == |t| && forall i :: 0 <= i < |t| ==> r[i].Char? && r[i].b == t[i]
  {
    seq(|t|, i requires 0 <= i < |t| => Char(t[i]))
  }

  lemma ItemsAppend(a: Text, b: Text)
    ensures Items(a + b) == Items(a) + Items(b)
  {
  }

  lemma {:induction false} ConcatAppend(ts: seq<Text>, t: Text)
    ensures Concat(ts + [t]) == Concat(ts) + t
  {
    if ts == [] {
      assert [] + [t] == [t];
    } else {
      ConcatAppend(ts[1..], t);
      assert (ts + [t])[1..] == ts[1..] + [t];
    }
  }

  /** Text taken by the writer and not yet written. */
  function InFlight(s: State): Text {
    match s.pc
    case Grabbed(batch) => Concat(batch)
    case Writing(batch, next) => if next <= |batch| then Concat(batch[next..]) else []
    case _ => []
  }

  /** Text on its way to the file, oldest first. */
  function Unwritten(s: State): Text {
    InFlight(s) + Concat(s.buffers) + s.current
  }

  /** The file and everything on its way to it are exactly the appended lines, in order. */
  ghost predicate Conserved(s: State) {
    s.file + Items(Unwritten(s)) == Items(s.appended)
  }

  /** The two ways of losing text: a line that fills a whole buffer, and a batch too large to write. */
  predicate Lossy(s: State, op: Op) {
    || (op.Append? && |op.line| >= LARGE_BUFFER)
    || (op.Trim? && s.pc.Grabbed? && |s.pc.batch| > MAX_BATCH)
  }

  lemma AppendUnwritten(s: State, line: Text)
    requires Inv(s)
    ensures var r := AppendLine(s, line);
            Unwritten(r) == Unwritten(s) + if |line| < LARGE_BUFFER then line else []
  {
    ConcatAppend(s.buffers, s.current);
    var r := AppendLine(s, line);
    if |s.current| + |line| < LARGE_BUFFER {
      assert Unwritten(s) + line == InFlight(s) + Concat(s.buffers) + (s.current + line);
    } else {
      assert InFlight(s) + (Concat(s.buffers) + s.current) == Unwritten(s);
      assert Unwritten(s) + [] == Unwritten(s);
    }
  }

  lemma GrabUnwritten(s: State)
    requires Inv(s) && Legal(s, Grab)
    ensures Unwritten(GrabAll(s)) == Unwritten(s)
  {
    ConcatAppend(s.buffers, s.current);
  }

  lemma Associate(a: Text, b: Text, c: Text, d: Text)
    ensures a + b + c + d == a + (b + c + d)
  {
  }

  lemma WriteUnwritten(s: State)
    requires Inv(s) && Legal(s, WriteOne)
    ensures var r := Step(s, WriteOne);
            Unwritten(s) == s.pc.batch[s.pc.next] + Unwritten(r)
  {
    hide Inv;
    var batch, n := s.pc.batch, s.pc.next;
    assert batch[n..][1..] == batch[n + 1..];
    assert Concat(batch[n..]) == batch[n] + Concat(batch[n + 1..]);
    Associate(batch[n], Concat(batch[n + 1..]), Concat(s.buffers), s.current);
  }

  /** Steps other than the lossy ones move text along without losing or reordering any. */
  lemma StepConserves(s: State, op: Op)
    requires Inv(s) && Legal(s, op) && !Lossy(s, op)
    ensures Conserved(Step(s, op)) <==> Conserved(s)
  {
    hide Unwritten;
    var r := Step(s, op);
    match op
    case Append(line) =>
      AppendUnwritten(s, line);
      ItemsAppend(Unwritten(s), line);
      ItemsAppend(s.appended, line);
      AppendedEqual(s.file, Items(Unwritten(s)), Items(s.appended), Items(line));
    case WriteOne =>
      WriteUnwritten(s);
      ItemsAppend(s.pc.batch[s.pc.next], Unwritten(r));
      assert r.file + Items(Unwritten(r)) == s.file + Items(Unwritten(s));
    case Grab => GrabUnwritten(s);
    case _ => SameUnwritten(s, op);
  }

  lemma SameUnwritten(s: State, op: Op)
    requires Inv(s) && Legal(s, op) && !Lossy(s, op) && !op.Append? && !op.WriteOne? && !op.Grab?
    ensures Unwritten(Step(s, op)) == Unwritten(s)
  {
    if op.Trim? {
      assert s.pc.batch[0..] == s.pc.batch;
    }
  }

  lemma AppendedEqual(a: seq<Item>, b: seq<Item>, c: seq<Item>, d: seq<Item>)
    ensures a + (b + d) == c + d <==> a + b == c
  {
    assert a + (b + d) == a + b + d;
    if a + b + d == c + d {
      assert |a + b| == |c|;
      assert a + b == (a + b + d)[..|c|] == (c + d)[..|c|] == c;
    }
  }

  /** Text is missing for good: a drop notice is in the file, or there is less text than was appended. */
  ghost predicate Damaged(s: State) {
    || (exists i :: 0 <= i < |s.file| && s.file[i].Dropped?)
    || |s.file| + |Unwritten(s)| < |s.appended|
  }

  lemma DamagedIsNotConserved(s: State)
    requires Damaged(s)
    ensures !Conserved(s)
  {
    var all := s.file + Items(Unwritten(s));
    assert |all| == |s.file| + |Unwritten(s)|;
    if i :| 0 <= i < |s.file| && s.file[i].Dropped? {
      assert all[i].Dropped?;
    }
  }

  lemma LossyDamages(s: State, op: Op)
    requires Inv(s) && Legal(s, op) && Lossy(s, op) && |s.file| + |Unwritten(s)| <= |s.appended|
    ensures Damaged(Step(s, op))
  {
    var r := Step(s, op);
    if op.Append? {
      AppendUnwritten(s, op.line);
    } else {
      assert r.file[|s.file|].Dropped?;
    }
  }

  lemma StepKeepsDamage(s: State, op: Op)
    requires Inv(s) && Legal(s, op) && Damaged(s)
    ensures Damaged(Step(s, op))
  {
    var r := Step(s, op);
    if i :| 0 <= i < |s.file| && s.file[i].Dropped? {
      assert r.file[i] == s.file[i];
    } else if Lossy(s, op) {
      LossyDamages(s, op);
    } else {
      match op
      case Append(line) => AppendUnwritten(s, line);
      case WriteOne => WriteUnwritten(s);
      case Grab => GrabUnwritten(s);
      case _ => SameUnwritten(s, op);
    }
  }

  lemma {:induction false} DamageLasts(s: State, ops: seq<Op>)
    requires Inv(s) && LegalRun(s, ops) && Damaged(s)
    ensures Damaged(Exec(s, ops))
    decreases |ops|
  {
    if ops != [] {
      StepKeepsDamage(s, ops[0]);
      DamageLasts(Step(s, ops[0]), ops[1..]);
    }
  }

  ghost predicate NoLoss(s: State, ops: seq<Op>)
    requires Inv(s) && LegalRun(s, ops)
    decreases |ops|
  {
    ops == [] || (!Lossy(s, ops[0]) && NoLoss(Step(s, ops[0]), ops[1..]))
  }

  lemma {:induction false} LossLasts(s: State, ops: seq<Op>)
    requires Inv(s) && LegalRun(s, ops) && Conserved(s) && !NoLoss(s, ops)
    ensures Damaged(Exec(s, ops))
    decreases |ops|
  {
    var r := Step(s, ops[0]);
    if Lossy(s, ops[0]) {
      assert |s.file + Items(Unwritten(s))| == |Items(s.appended)|;
      LossyDamages(s, ops[0]);
      DamageLasts(r, ops[1..]);
    } else {
      StepConserves(s, ops[0]);
      LossLasts(r, ops[1..]);
    }
  }

  lemma {:induction false} ConservedIff(s: State, ops: seq<Op>)
    requires Inv(s) && LegalRun(s, ops) && Conserved(s)
    ensures Conserved(Exec(s, ops)) <==> NoLoss(s, ops)
    decreases |ops|
  {
    if !NoLoss(s, ops) {
      LossLasts(s, ops);
      DamagedIsNotConserved(Exec(s, ops));
    } else if ops != [] {
      StepConserves(s, ops[0]);
      ConservedIff(Step(s, ops[0]), ops[1..]);
    }
  }

  /**
   * Over every interleaving, file and text on its way are what was appended exactly when every line is shorter than a
   * large buffer and no batch exceeds 25 buffers; and then the file is always a prefix of what was appended.
   */
  lemma LogConservedIff(ops: seq<Op>)
    requires LegalRun(INITIAL, ops)
    ensures Conserved(Exec(INITIAL, ops)) <==> NoLoss(INITIAL, ops)
    ensures NoLoss(INITIAL, ops) ==> Exec(INITIAL, ops).file <= Items(Exec(INITIAL, ops).appended)
  {
    ConservedIff(INITIAL, ops);
  }

  // ----- what has reached the file when the writer is gone -----

  /** Text the writer has not taken yet. */
  function Held(s: State): Text {
    Concat(s.buffers) + s.current
  }

  /** The text appended after the last time the writer took the buffers. */
  function SinceGrab(acc: Text, ops: seq<Op>): Text
    decreases |ops|
  {
    if ops == [] then acc
    else SinceGrab(match ops[0]
                   case Append(line) => acc + line
                   case Grab => []
                   case _ => acc, ops[1..])
  }

  lemma StepHeld(s: State, op: Op)
    requires Inv(s) && Legal(s, op) && !Lossy(s, op)
    ensures Held(Step(s, op)) == if op.Append? then Held(s) + op.line else if op.Grab? then [] else Held(s)
  {
    if op.Append? {
      ConcatAppend(s.buffers, s.current);
      assert Concat(s.buffers) + (s.current + op.line) == Held(s) + op.line;
    }
  }

  lemma {:induction false} RunHeld(s: State, ops: seq<Op>)
    requires Inv(s) && LegalRun(s, ops) && NoLoss(s, ops)
    ensures Held(Exec(s, ops)) == SinceGrab(Held(s), ops)
    decreases |ops|
  {
    hide Inv, Held;
    if ops != [] {
      StepHeld(s, ops[0]);
      RunHeld(Step(s, ops[0]), ops[1..]);
    }
  }

  lemma DamagedFileDiffers(s: State)
    requires Damaged(s)
    ensures s.file != Items(s.appended)
  {
    if i :| 0 <= i < |s.file| && s.file[i].Dropped? {
      assert i < |s.appended| ==> Items(s.appended)[i].Char?;
    }
  }

  /**
   * Once the writer has stopped, the file is what was appended exactly when no step was lossy and nothing was appended
   * after the writer last took the buffers: it does not look again on its way out.
   */
  lemma StoppedFileIff(ops: seq<Op>)
    requires LegalRun(INITIAL, ops) && Exec(INITIAL, ops).pc.Stopped?
    ensures var s := Exec(INITIAL, ops);
            s.file == Items(s.appended) <==> NoLoss(INITIAL, ops) && SinceGrab([], ops) == []
  {
    hide Conserved, Held, Exec, LegalRun, NoLoss, Inv, Damaged;
    InitiallyConserved();
    var s := Exec(INITIAL, ops);
    if NoLoss(INITIAL, ops) {
      ConservedIff(INITIAL, ops);
      RunHeld(INITIAL, ops);
      CompleteIff(s);
    } else {
      LossLasts(INITIAL, ops);
      DamagedFileDiffers(s);
    }
  }

  lemma InitiallyConserved()
    ensures Inv(INITIAL) && Conserved(INITIAL) && Held(INITIAL) == []
  {
  }

  lemma CompleteIff(s: State)
    requires s.pc.Stopped? && Conserved(s)
    ensures s.file == Items(s.appended) <==> Held(s) == []
  {
    assert Unwritten(s) == Held(s);
    assert |Items(s.appended)| == |s.file| + |Held(s)|;
    if Held(s) == [] {
      assert s.file + Items(Unwritten(s)) == s.file;
    }
  }

  /** A line appended before stop() and not yet taken when the writer tests running_ is never written. */
  lemma StoppedBeforeWriting(b: byte)
    ensures var ops := [Append([b]), Stop, Exit];
            && LegalRun(INITIAL, ops) && NoLoss(INITIAL, ops)
            && var s := Exec(INITIAL, ops); s.pc.Stopped? && s.file == [] && s.current == [b]
  {
    var s1 := Step(INITIAL, Append([b]));
    var s2 := Step(s1, Stop);
    var s3 := Step(s2, Exit);
    assert LegalRun(s3, []) && LegalRun(s2, [Exit]) && LegalRun(s1, [Stop, Exit]);
    assert NoLoss(s3, []) && NoLoss(s2, [Exit]) && NoLoss(s1, [Stop, Exit]);
    assert Exec(s2, [Exit]) == s3 && Exec(s1, [Stop, Exit]) == s3;
  }

  // ----- a batch that is too large -----

  function Flood(line: Text, n: nat): seq<Op> {
    if n == 0 then [] else [Append(line)] + Flood(line, n - 1)
  }

  /** Lines that each fill a buffer: every one after the first makes a full buffer more. */
  lemma {:induction false} FloodFills(s: State, line: Text, n: nat)
    requires Inv(s) && |line| == LARGE_BUFFER - 1 && s.current != []
    ensures LegalRun(s, Flood(line, n))
    ensures var r := Exec(s, Flood(line, n));
            |r.buffers| == |s.buffers| + n && r.current != [] && r.pc == s.pc && r.running == s.running && r.file == s.file
    decreases n
  {
    if n != 0 {
      var ops := Flood(line, n);
      assert ops[1..] == Flood(line, n - 1);
      FloodFills(Step(s, Append(line)), line, n - 1);
    }
  }

  lemma {:induction false} ExecAppend(s: State, a: seq<Op>, b: seq<Op>)
    requires Inv(s) && LegalRun(s, a) && LegalRun(Exec(s, a), b)
    ensures LegalRun(s, a + b) && Exec(s, a + b) == Exec(Exec(s, a), b)
    decreases |a|
  {
    hide Inv, Step, Legal;
    if a == [] {
      assert a + b == b;
    } else {
      assert (a + b)[1..] == a[1..] + b;
      ExecAppend(Step(s, a[0]), a[1..], b);
    }
  }

  lemma TakeAndTrim(s: State)
    requires Inv(s) && s.pc.Head? && s.running && s.buffers != []
    ensures var ops := [Enter, Grab, Trim];
            && LegalRun(s, ops)
            && Exec(s, ops).file == s.file + if |s.buffers| + 1 > MAX_BATCH then [Dropped(|s.buffers| - 1)] else []
  {
    var s1 := Step(s, Enter);
    var s2 := Step(s1, Grab);
    var s3 := Step(s2, Trim);
    assert LegalRun(s3, []) && LegalRun(s2, [Trim]) && LegalRun(s1, [Grab, Trim]);
    assert Exec(s2, [Trim]) == s3 && Exec(s1, [Grab, Trim]) == s3;
  }

  /** Appenders that outrun the writer by `n` such lines get buffers dropped exactly when n is over 25. */
  lemma FloodDrops(line: Text, n: nat)
    requires |line| == 3_999_999 && 2 <= n
    ensures var ops := Flood(line, n) + [Enter, Grab, Trim];
            && LegalRun(INITIAL, ops)
            && Exec(INITIAL, ops).file == if n > 25 then [Dropped(n - 2)] else []
  {
    var s := Step(INITIAL, Append(line));
    FloodFills(s, line, n - 1);
    var ops := Flood(line, n);
    assert ops[1..] == Flood(line, n - 1);
    assert LegalRun(INITIAL, ops) && Exec(INITIAL, ops) == Exec(s, ops[1..]);
    TakeAndTrim(Exec(INITIAL, ops));
    ExecAppend(INITIAL, ops, [Enter, Grab, Trim]);
  }

  /** At every loop head both spares are present and empty, whatever the appenders did meanwhile. */
  lemma SparesReadyAtHead(ops: seq<Op>)
    requires LegalRun(INITIAL, ops)
    ensures var s := Exec(INITIAL, ops);
            && (s.pc.Head? || s.pc.Entered? || s.pc.Waiting? ==> s.spare1 == Some([]) && s.spare2 == Some([]))
            && (s.next.None? ==> s.buffers != [])
            && (s.pc.Writing? && s.spare2.None? ==> 2 <= |s.pc.batch|)
  {
  }

  // ----- from the calls to the record -----

  function AppendedBy(ops: seq<Op>): Text {
    if ops == [] then [] else LineOf(ops[0]) + AppendedBy(ops[1..])
  }

  function LineOf(op: Op): Text {
    if op.Append? then op.line else []
  }

  lemma {:induction false} RunAppends(s: State, ops: seq<Op>)
    requires Inv(s) && LegalRun(s, ops)
    ensures Exec(s, ops).appended == s.appended + AppendedBy(ops)
    decreases |ops|
  {
    hide Inv, Step, Legal, LineOf;
    if ops == [] {
      assert s.appended + [] == s.appended;
    } else {
      StepAppends(s, ops[0]);
      RunAppends(Step(s, ops[0]), ops[1..]);
      assert s.appended + LineOf(ops[0]) + AppendedBy(ops[1..]) == s.appended + (LineOf(ops[0]) + AppendedBy(ops[1..]));
    }
  }

  lemma StepAppends(s: State, op: Op)
    requires Inv(s) && Legal(s, op)
    ensures Step(s, op).appended == s.appended + LineOf(op)
  {
    assert s.appended + [] == s.appended;
  }

  /** The file and the text on its way are, in order, the lines of all the calls, exactly when no step was lossy. */
  lemma EveryLineIsKeptIff(ops: seq<Op>)
    requires LegalRun(INITIAL, ops)
    ensures var s := Exec(INITIAL, ops); s.file + Items(Unwritten(s)) == Items(AppendedBy(ops)) <==> NoLoss(INITIAL, ops)
  {
    LogConservedIff(ops);
    RunAppends(INITIAL, ops);
    assert [] + AppendedBy(ops) == AppendedBy(ops);
  }

  // ----- a buffer is filled before the next one is begun -----

  /** A line that fits goes behind what is in the current buffer; only one that does not begins a new buffer. */
  lemma AppendOutcome(s: State, line: Text)
    requires Inv(s)
    ensures var r := Step(s, Append(line));
            if |s.current| + |line| < LARGE_BUFFER then r.current == s.current + line && r.buffers == s.buffers && r.next == s.next
            else && r.buffers == s.buffers + [s.current] && r.next == None
                 && r.current == if |line| < LARGE_BUFFER then line else []
  {
  }

  /** Any two neighbours hold a large buffer's worth together. */
  ghost predicate Packed(bs: seq<Text>) {
    forall i :: 0 <= i < |bs| - 1 ==> LARGE_BUFFER <= |bs[i]| + |bs[i + 1]|
  }

  ghost predicate AllPacked(s: State) {
    && Packed(s.buffers + [s.current])
    && (s.pc.Grabbed? ==> Packed(s.pc.batch))
  }

  lemma PackedSnoc(bs: seq<Text>, last: Text, next: Text)
    requires Packed(bs + [last]) && LARGE_BUFFER <= |last| + |next|
    ensures Packed(bs + [last] + [next])
  {
    var all := bs + [last] + [next];
    forall i | 0 <= i < |all| - 1 ensures LARGE_BUFFER <= |all[i]| + |all[i + 1]| {
      if i + 1 < |bs + [last]| {
        assert all[i] == (bs + [last])[i] && all[i + 1] == (bs + [last])[i + 1];
      }
    }
  }

  lemma PackedGrows(bs: seq<Text>, last: Text, more: Text)
    requires Packed(bs + [last])
    ensures Packed(bs + [last + more])
  {
    var was, now := bs + [last], bs + [last + more];
    forall i | 0 <= i < |now| - 1 ensures LARGE_BUFFER <= |now[i]| + |now[i + 1]| {
      assert LARGE_BUFFER <= |was[i]| + |was[i + 1]|;
    }
  }

  lemma StepPacked(s: State, op: Op)
    requires Inv(s) && Legal(s, op) && AllPacked(s) && (op.Append? ==> |op.line| < LARGE_BUFFER)
    ensures AllPacked(Step(s, op))
  {
    hide Packed;
    if op.Append? {
      AppendOutcome(s, op.line);
      if |s.current| + |op.line| < LARGE_BUFFER {
        PackedGrows(s.buffers, s.current, op.line);
      } else {
        PackedSnoc(s.buffers, s.current, op.line);
      }
    } else if op.Grab? {
      PackedOne(Step(s, op).current);
      assert [] + [Step(s, op).current] == [Step(s, op).current];
    }
  }

  lemma PackedOne(t: Text)
    ensures Packed([t])
  {
  }

  lemma {:induction false} RunPacked(s: State, ops: seq<Op>)
    requires Inv(s) && LegalRun(s, ops) && AllPacked(s)
    requires forall op :: op in ops && op.Append? ==> |op.line| < LARGE_BUFFER
    ensures AllPacked(Exec(s, ops))
    decreases |ops|
  {
    hide Inv, Step, Legal, AllPacked;
    if ops != [] {
      assert ops[0] in ops && forall op :: op in ops[1..] ==> op in ops;
      StepPacked(s, ops[0]);
      RunPacked(Step(s, ops[0]), ops[1..]);
    }
  }

  lemma {:induction false} PackedText(bs: seq<Text>)
    requires Packed(bs)
    ensures |bs| / 2 * LARGE_BUFFER <= |Concat(bs)|
    decreases |bs|
  {
    if 2 <= |bs| {
      var rest := bs[2..];
      assert bs[1..][1..] == rest;
      assert Concat(bs) == bs[0] + (bs[1] + Concat(rest));
      forall i | 0 <= i < |rest| - 1 ensures LARGE_BUFFER <= |rest[i]| + |rest[i + 1]| {
        assert rest[i] == bs[i + 2] && rest[i + 1] == bs[i + 3];
      }
      PackedText(rest);
    }
  }

  /** With no oversized line, text is dropped only when thirteen large buffers' worth of it was waiting to be written. */
  lemma DropNeedsBacklog(ops: seq<Op>)
    requires LegalRun(INITIAL, ops) && forall op :: op in ops && op.Append? ==> |op.line| < LARGE_BUFFER
    ensures var s := Exec(INITIAL, ops);
            Legal(s, Trim) && Lossy(s, Trim) ==> 13 * LARGE_BUFFER <= |InFlight(s)|
  {
    assert [] + [INITIAL.current] == [[]];
    RunPacked(INITIAL, ops);
    var s := Exec(INITIAL, ops);
    if Legal(s, Trim) && Lossy(s, Trim) {
      PackedText(s.pc.batch);
    }
  }

  /** What is kept of a batch that is too large: the two oldest buffers, behind a notice of how many are gone. */
  lemma TrimOutcome(s: State)
    requires Inv(s) && Legal(s, Trim)
    ensures var r := Step(s, Trim);
            && (|s.pc.batch| <= MAX_BATCH ==> r.file == s.file && InFlight(r) == Concat(s.pc.batch))
            && (|s.pc.batch| > MAX_BATCH ==>
                 r.file == s.file + [Dropped(|s.pc.batch| - 2)] && InFlight(r) == s.pc.batch[0] + s.pc.batch[1])
  {
    var batch := s.pc.batch;
    assert batch[0..] == batch;
    if |batch| > MAX_BATCH {
      var kept := batch[..2];
      var tail: seq<Text> := [batch[1]];
      assert kept[0..] == kept && kept[1..] == tail && tail[1..] == [];
      assert Concat(tail) == batch[1] + Concat(tail[1..]) == batch[1];
    }
  }

  // ----- one round of the writer -----

  function Writes(n: nat): seq<Op> {
    if n == 0 then [] else [WriteOne] + Writes(n - 1)
  }

  lemma FileGrows(file: seq<Item>, a: Text, b: Text)
    ensures file + Items(a) + Items(b) == file + Items(a + b)
  {
    ItemsAppend(a, b);
  }

  lemma {:induction false} WritesAll(s: State)
    requires Inv(s) && s.pc.Writing?
    ensures var batch, n := s.pc.batch, |s.pc.batch| - s.pc.next;
            && LegalRun(s, Writes(n))
            && Exec(s, Writes(n)) == s.(file := s.file + Items(Concat(batch[s.pc.next..])), pc := Writing(batch, |batch|))
    decreases |s.pc.batch| - s.pc.next
  {
    var batch, k := s.pc.batch, s.pc.next;
    if k == |batch| {
      assert s.file + Items(Concat(batch[k..])) == s.file;
    } else {
      var r := Step(s, WriteOne);
      WritesAll(r);
      assert Writes(|batch| - k)[1..] == Writes(|batch| - k - 1);
      assert batch[k..][1..] == batch[k + 1..];
      FileGrows(s.file, batch[k], Concat(batch[k + 1..]));
    }
  }

  lemma TakeOutcome(s: State)
    requires Inv(s) && s.pc.Head? && s.running && s.buffers != [] && |s.buffers| < MAX_BATCH
    ensures var ops := [Enter, Grab, Trim];
            && LegalRun(s, ops)
            && var r := Exec(s, ops);
               && r.pc == Writing(s.buffers + [s.current], 0) && r.file == s.file && r.buffers == [] && r.current == []
               && r.next.Some?
  {
    var s1 := Step(s, Enter);
    var s2 := Step(s1, Grab);
    var s3 := Step(s2, Trim);
    assert LegalRun(s3, []) && LegalRun(s2, [Trim]) && LegalRun(s1, [Grab, Trim]);
    assert Exec(s2, [Trim]) == s3 && Exec(s1, [Grab, Trim]) == s3;
  }

  lemma RecycleOutcome(s: State)
    requires Inv(s) && Legal(s, Recycle)
    ensures LegalRun(s, [Recycle])
    ensures var r := Exec(s, [Recycle]); r == s.(pc := Head, spare1 := Some([]), spare2 := Some([]))
  {
    assert LegalRun(Step(s, Recycle), []) && [Recycle][1..] == [];
  }

  /**
   * One round of the writer left to itself, with a batch it does not trim, puts everything it found into the file in
   * order and comes back to its loop head with both halves ready.
   */
  lemma WriterRound(s: State)
    requires Inv(s) && s.pc.Head? && s.running && s.buffers != [] && |s.buffers| < MAX_BATCH
    ensures var ops := [Enter, Grab, Trim] + (Writes(|s.buffers| + 1) + [Recycle]);
            && LegalRun(s, ops)
            && var r := Exec(s, ops);
               r.file == s.file + Items(Held(s)) && r.pc.Head? && r.buffers == [] && r.current == [] && r.next.Some?
  {
    hide Inv, Step, Legal, LegalRun, Exec, Writes;
    TakeOutcome(s);
    var s3 := Exec(s, [Enter, Grab, Trim]);
    var batch := s.buffers + [s.current];
    WritesAll(s3);
    var s4 := Exec(s3, Writes(|batch|));
    Finished(s4);
    RecycleOutcome(s4);
    ExecAppend(s3, Writes(|batch|), [Recycle]);
    ExecAppend(s, [Enter, Grab, Trim], Writes(|batch|) + [Recycle]);
    ConcatAppend(s.buffers, s.current);
    assert batch[0..] == batch;
  }

  lemma Finished(s: State)
    requires s.pc.Writing? && s.pc.next == |s.pc.batch|
    ensures Legal(s, Recycle)
  {
  }
}
