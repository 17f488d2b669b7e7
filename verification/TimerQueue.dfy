/**
 * The timer scheduler of muduo/net/TimerQueue.cc as a transition system on values.
 * Timers live at addresses of an explicit heap, so that use after free, double free and address reuse are visible.
 * A callback is whatever add, cancel and create steps happen between two `RunNext` steps of a batch.
 */
module TimerQueues {
  type Addr = nat

  datatype Timer = Timer(expiration: int, repeat: bool, interval: nat, sequence: nat)

  /** std::pair<Timestamp, Timer*>, ordered lexicographically. */
  datatype Entry = Entry(when: int, addr: Addr)

  /** Both TimerId and ActiveTimer: an address and the sequence number the timer had. */
  datatype TimerId = TimerId(addr: Addr, sequence: nat)

  datatype Timerfd = Disarmed | Armed(deadline: int, at: int) | Fired

  /** One callback invocation: in which batch, which timer, when it was due, and the batch's clock. */
  datatype Run = Run(batch: nat, sequence: nat, due: int, at: int)

  datatype State = State(
    heap: map<Addr, Timer>,
    timers: seq<Entry>,
    active: set<TimerId>,
    calling: bool,
    canceling: set<TimerId>,
    fd: Timerfd,
    clock: int,
    numCreated: nat,
    // the expired vector of the running handleRead, how far its loop got, and its `now`
    batch: seq<Entry>,
    ran: nat,
    now: int,
    // history: the address each sequence number was created at, and what became of it
    home: map<nat, Addr>,
    batchNo: nat,
    inserted: set<nat>,
    deleted: set<nat>,
    log: seq<Run>,
    frees: seq<nat>)        // each delete, in order

  // ----- sorted sequences of entries: the std::set<Entry> -----

  predicate Less(e: Entry, f: Entry) {
    e.when < f.when || (e.when == f.when && e.addr < f.addr)
  }

  ghost predicate Sorted(s: seq<Entry>) {
    forall i, j :: 0 <= i < j < |s| ==> Less(s[i], s[j])
  }

  function InsertSorted(s: seq<Entry>, e: Entry): (r: seq<Entry>)
    requires Sorted(s) && e !in s
    ensures Sorted(r) && |r| == |s| + 1
    ensures forall x :: x in r <==> x == e || x in s
    ensures r[0] == if s == [] || Less(e, s[0]) then e else s[0]
  {
    if s == [] || Less(e, s[0]) then [e] + s
    else
      var t := InsertSorted(s[1..], e);
      assert forall i :: 0 <= i < |t| ==> t[i] in t;
      [s[0]] + t
  }

  function Erase(s: seq<Entry>, e: Entry): (r: seq<Entry>)
    requires Sorted(s) && e in s
    ensures Sorted(r) && |r| == |s| - 1
    ensures forall x :: x in r <==> x in s && x != e
    ensures r != [] ==> s[0] == r[0] || Less(s[0], r[0])
  {
    if s[0] == e then
      assert s == [e] + s[1..];
      s[1..]
    else
      var t := Erase(s[1..], e);
      assert forall i :: 0 <= i < |t| ==> t[i] in t;
      assert s == [s[0]] + s[1..];
      [s[0]] + t
  }

  /** lower_bound of (now, UINTPTR_MAX): how many entries are due. */
  function DueCount(s: seq<Entry>, now: int): (n: nat)
    requires Sorted(s)
    ensures n <= |s|
    ensures forall i :: 0 <= i < n ==> s[i].when <= now
    ensures forall i :: n <= i < |s| ==> now < s[i].when
  {
    if s == [] || now < s[0].when then 0 else 1 + DueCount(s[1..], now)
  }

  // ----- the timerfd -----

  const US_PER_SECOND := 1000 * 1000

  function Max(a: int, b: int): int {
    if a < b then b else a
  }

  /** The relative timeout given to timerfd_settime, as (tv_sec, tv_nsec); never the zero that would disarm it. */
  function HowMuchTimeFromNow(when: int, now: int): (ts: (int, int))
    ensures ts.0 * US_PER_SECOND * 1000 + ts.1 == 1000 * Max(when - now, 100)
    ensures 0 <= ts.0 && 0 <= ts.1 < 1000 * US_PER_SECOND && ts != (0, 0)
  {
    var us := if when - now < 100 then 100 else when - now;
    (us / US_PER_SECOND, us % US_PER_SECOND * 1000)
  }

  function ResetTimerfd(when: int, now: int): Timerfd {
    var ts := HowMuchTimeFromNow(when, now);
    Armed(now + ts.0 * US_PER_SECOND + ts.1 / 1000, now)
  }

  lemma ResetTimerfdDeadline(when: int, now: int)
    ensures ResetTimerfd(when, now) == Armed(Max(when, now + 100), now)
  {
  }

  // ----- the invariant -----

  function IdOf(s: State, a: Addr): TimerId
    requires a in s.heap
  {
    TimerId(a, s.heap[a].sequence)
  }

  function EntryOf(s: State, a: Addr): Entry
    requires a in s.heap
  {
    Entry(s.heap[a].expiration, a)
  }

  predicate Queued(s: State, a: Addr)
    requires a in s.heap
  {
    EntryOf(s, a) in s.timers
  }

  predicate InBatch(s: State, a: Addr)
    requires a in s.heap
  {
    EntryOf(s, a) in s.batch
  }

  /** timers_ and activeTimers_ index exactly the same live timers. */
  ghost predicate Indexed(heap: map<Addr, Timer>, timers: seq<Entry>, active: set<TimerId>) {
    && Sorted(timers)
    && |timers| == |active|
    && (forall e :: e in timers ==>
         e.addr in heap && heap[e.addr].expiration == e.when && TimerId(e.addr, heap[e.addr].sequence) in active)
    && (forall id :: id in active ==>
         id.addr in heap && heap[id.addr].sequence == id.sequence && Entry(heap[id.addr].expiration, id.addr) in timers)
  }

  ghost predicate IndexInv(s: State) {
    Indexed(s.heap, s.timers, s.active)
  }

  ghost predicate BatchInv(s: State) {
    && Sorted(s.batch)
    && s.ran <= |s.batch|
    && (!s.calling ==> s.batch == [])
    && (forall e :: e in s.batch ==> e.addr in s.heap && e == EntryOf(s, e.addr) && e !in s.timers && e.when <= s.now)
    && (s.calling ==> 0 < s.now)
  }

  /**
   * Every timer ever inserted is in exactly one of queue, batch and graveyard, one not yet inserted is allocated, and
   * sequence numbers are unique.
   */
  ghost predicate PartitionInv(s: State) {
    && (forall q :: q in s.home ==> q <= s.numCreated)
    && (forall a :: a in s.heap ==> HomeInv(s, a))
    && (forall q :: q in s.deleted ==> q in s.inserted)
    && (forall q :: q in s.inserted ==> q in s.home)
    && (forall q :: q in s.home ==> q in s.deleted || (s.home[q] in s.heap && s.heap[s.home[q]].sequence == q))
  }

  ghost predicate HomeInv(s: State, a: Addr)
    requires a in s.heap
  {
    var q := s.heap[a].sequence;
    q in s.home && s.home[q] == a && q !in s.deleted && (q in s.inserted <==> Queued(s, a) || InBatch(s, a))
  }

  /** The kernel timer is armed early enough for the head of the queue, or has fired and is unread. */
  ghost predicate HeadArmed(s: State) {
    s.timers != [] ==>
      || s.fd.Fired?
      || (s.fd.Armed? && s.fd.deadline <= Max(s.timers[0].when, s.fd.at + 100))
  }

  ghost predicate FdInv(s: State) {
    && 0 < s.clock
    && (s.fd.Armed? ==> s.fd.at <= s.clock)
    && (!s.calling ==> HeadArmed(s))
    && (s.timers != [] && s.timers[0].when <= 0 ==> HeadArmed(s))
  }

  ghost predicate LogInv(s: State) {
    forall i :: 0 <= i < |s.log| ==> s.log[i].due <= s.log[i].at && s.log[i].batch <= s.batchNo && s.log[i].sequence in s.inserted
  }

  ghost predicate Inv(s: State) {
    IndexInv(s) && BatchInv(s) && PartitionInv(s) && FdInv(s) && LogInv(s)
  }

  function Initial(clock: int): (s: State)
    requires 0 < clock
    ensures Inv(s)
  {
    State(map[], [], {}, false, {}, Disarmed, clock, 0, [], 0, 0, map[], 0, {}, {}, [], [])
  }

  // ----- the transitions -----

  datatype Op =
    | Create(addr: Addr, when: int, repeat: bool, interval: nat)
    | Tick(t: int)
    | AddInLoop(a: Addr, t: int)
    | CancelInLoop(id: TimerId)
    | BeginRead(now: int)
    | RunNext
    | EndRead(t: int)

  /** Timer::Timer: the allocator may hand out any free address. */
  function NewTimer(s: State, addr: Addr, when: int, repeat: bool, interval: nat): State {
    var q := s.numCreated + 1;
    s.(heap := s.heap[addr := Timer(when, repeat, interval, q)], numCreated := q, home := s.home[q := addr])
  }

  /** Time passes; an armed timerfd whose deadline is reached becomes readable. */
  function Advance(s: State, t: int): State {
    s.(clock := t, fd := if s.fd.Armed? && s.fd.deadline <= t then Fired else s.fd)
  }

  /** TimerQueue::insert, without its return value. */
  function Insert(s: State, a: Addr): State
    requires IndexInv(s) && a in s.heap && !Queued(s, a)
  {
    s.(timers := InsertSorted(s.timers, EntryOf(s, a)), active := s.active + {IdOf(s, a)})
  }

  predicate EarliestChanged(s: State, a: Addr)
    requires a in s.heap
  {
    s.timers == [] || s.heap[a].expiration < s.timers[0].when
  }

  function AddTimer(s: State, a: Addr, t: int): State
    requires IndexInv(s) && a in s.heap && !Queued(s, a)
  {
    Insert(s, a).(
      inserted := s.inserted + {s.heap[a].sequence},
      clock := t,
      fd := if EarliestChanged(s, a) then ResetTimerfd(s.heap[a].expiration, t) else s.fd)
  }

  function Delete(s: State, a: Addr): State
    requires a in s.heap
  {
    s.(heap := s.heap - {a}, deleted := s.deleted + {s.heap[a].sequence}, frees := s.frees + [s.heap[a].sequence])
  }

  function Cancel(s: State, id: TimerId): State
    requires IndexInv(s)
  {
    if id in s.active then
      Delete(s.(timers := Erase(s.timers, EntryOf(s, id.addr)), active := s.active - {id}), id.addr)
    else if s.calling then s.(canceling := s.canceling + {id})
    else s
  }

  function IdsOf(s: State, es: seq<Entry>): set<TimerId>
    requires forall e :: e in es ==> e.addr in s.heap
  {
    set e | e in es :: IdOf(s, e.addr)
  }

  /** TimerQueue::getExpired. */
  function GetExpired(s: State, now: int): (State, seq<Entry>)
    requires IndexInv(s)
  {
    var n := DueCount(s.timers, now);
    (s.(timers := s.timers[n..], active := s.active - IdsOf(s, s.timers[..n])), s.timers[..n])
  }

  /** readTimerfd, getExpired, and the two assignments before the loop of handleRead. */
  function StartBatch(s: State, now: int): State
    requires IndexInv(s)
  {
    var (q, expired) := GetExpired(s, now);
    q.(fd := if s.fd.Fired? then Disarmed else s.fd, clock := now, now := now, batch := expired, ran := 0,
       batchNo := s.batchNo + 1, calling := true, canceling := {})
  }

  function RunTimer(s: State): State
    requires BatchInv(s) && s.ran < |s.batch|
  {
    var e := s.batch[s.ran];
    s.(ran := s.ran + 1, log := s.log + [Run(s.batchNo, s.heap[e.addr].sequence, e.when, s.now)])
  }

  /** One iteration of the loop in reset: restart and reinsert, or delete. */
  function ResetOne(s: State): State
    requires IndexInv(s) && BatchInv(s) && s.batch != []
  {
    var a := s.batch[0].addr;
    var timer := s.heap[a];
    var rest := s.(batch := s.batch[1..], ran := 0);
    if timer.repeat && IdOf(s, a) !in s.canceling then
      var restarted := rest.(heap := s.heap[a := timer.(expiration := s.now + timer.interval)]);
      NotQueuedAt(s, a);
      restarted.(timers := InsertSorted(s.timers, EntryOf(restarted, a)), active := s.active + {IdOf(s, a)})
    else
      Delete(rest, a)
  }

  /** A timer whose current entry is out of the queue has no entry in it at any time. */
  lemma NotQueuedAt(s: State, a: Addr)
    requires IndexInv(s) && a in s.heap && !Queued(s, a)
    ensures forall w :: Entry(w, a) !in s.timers
    ensures IdOf(s, a) !in s.active && Sorted(s.timers)
  {
  }

  /** The whole loop of reset. */
  function ResetAll(s: State): (r: State)
    requires Inv(s) && s.calling
    ensures Inv(r) && r.calling && r.batch == []
    decreases |s.batch|
  {
    if s.batch == [] then s
    else
      ResetOneInv(s);
      ResetAll(ResetOne(s))
  }

  /** The tail of handleRead: clear the flag, reset the batch, rearm for the new head. */
  function EndBatch(s: State, t: int): State
    requires Inv(s) && s.calling
  {
    var r := ResetAll(s);
    r.(calling := false, ran := 0, clock := t,
       fd := if r.timers != [] && 0 < r.timers[0].when then ResetTimerfd(r.timers[0].when, t) else r.fd)
  }

  /** What the callers of the real methods guarantee. */
  predicate Legal(s: State, op: Op) {
    match op
    case Create(addr, _, _, _) => addr !in s.heap
    case Tick(t) => s.clock <= t
    case AddInLoop(a, t) => a in s.heap && s.heap[a].sequence !in s.inserted && s.clock <= t
    case CancelInLoop(_) => true
    case BeginRead(now) => !s.calling && s.clock <= now
    case RunNext => s.calling && s.ran < |s.batch|
    case EndRead(t) => s.calling && s.ran == |s.batch| && s.clock <= t
  }

  function Step(s: State, op: Op): (r: State)
    requires Inv(s) && Legal(s, op)
    ensures Inv(r)
  {
    match op
    case Create(addr, when, repeat, interval) => NewTimerInv(s, addr, when, repeat, interval); NewTimer(s, addr, when, repeat, interval)
    case Tick(t) => AdvanceInv(s, t); Advance(s, t)
    case AddInLoop(a, t) => AddTimerInv(s, a, t); AddTimer(s, a, t)
    case CancelInLoop(id) => CancelInv(s, id); Cancel(s, id)
    case BeginRead(now) => StartBatchInv(s, now); StartBatch(s, now)
    case RunNext => RunTimerInv(s); RunTimer(s)
    case EndRead(t) => EndBatchInv(s, t); EndBatch(s, t)
  }

  ghost predicate LegalRun(s: State, ops: seq<Op>)
    requires Inv(s)
    decreases |ops|
  {
    ops == [] || (Legal(s, ops[0]) && LegalRun(Step(s, ops[0]), ops[1..]))
  }

  /** Any finite run; its result satisfies the invariant because every step does. */
  function Exec(s: State, ops: seq<Op>): (r: State)
    requires Inv(s) && LegalRun(s, ops)
    ensures Inv(r)
    decreases |ops|
  {
    if ops == [] then s else Exec(Step(s, ops[0]), ops[1..])
  }

  // ----- every transition keeps the index -----

  lemma IndexedInsert(heap: map<Addr, Timer>, timers: seq<Entry>, active: set<TimerId>, a: Addr, timer: Timer)
    requires Indexed(heap, timers, active)
    requires a in heap ==> TimerId(a, heap[a].sequence) !in active
    ensures Entry(timer.expiration, a) !in timers
    ensures Indexed(heap[a := timer], InsertSorted(timers, Entry(timer.expiration, a)), active + {TimerId(a, timer.sequence)})
  {
  }

  lemma IndexedErase(heap: map<Addr, Timer>, timers: seq<Entry>, active: set<TimerId>, id: TimerId)
    requires Indexed(heap, timers, active) && id in active
    ensures Indexed(heap - {id.addr}, Erase(timers, Entry(heap[id.addr].expiration, id.addr)), active - {id})
  {
    var t := Erase(timers, Entry(heap[id.addr].expiration, id.addr));
    hide Sorted;
    forall e | e in t ensures e in timers && e.addr != id.addr {
    }
  }

  lemma IndexedForget(heap: map<Addr, Timer>, timers: seq<Entry>, active: set<TimerId>, a: Addr)
    requires Indexed(heap, timers, active) && a in heap && TimerId(a, heap[a].sequence) !in active
    ensures Indexed(heap - {a}, timers, active)
  {
  }

  lemma IndexedTail(heap: map<Addr, Timer>, timers: seq<Entry>, active: set<TimerId>)
    requires Indexed(heap, timers, active) && timers != []
    ensures timers[0].addr in heap
    ensures Indexed(heap, timers[1..], active - {TimerId(timers[0].addr, heap[timers[0].addr].sequence)})
  {
    var e0 := timers[0];
    assert timers == [e0] + timers[1..];
    assert Sorted(timers[1..]);
    forall e | e in timers[1..] ensures e != e0 && e in timers {
      var i :| 1 <= i < |timers| && timers[i] == e;
      assert Less(e0, e);
    }
  }

  lemma {:induction false} IndexedDrop(s: State, n: nat)
    requires IndexInv(s) && n <= |s.timers|
    ensures Indexed(s.heap, s.timers[n..], s.active - IdsOf(s, s.timers[..n]))
  {
    assert forall e :: e in s.timers ==> e.addr in s.heap;
    hide Indexed, IdsOf;
    if n == 0 {
      IdsOfNone(s);
      assert s.timers[0..] == s.timers;
    } else {
      IndexedDrop(s, n - 1);
      IndexedDropNext(s, n - 1);
    }
  }

  lemma IdsOfNone(s: State)
    ensures s.active - IdsOf(s, s.timers[..0]) == s.active
  {
  }

  lemma IndexedDropNext(s: State, n: nat)
    requires n < |s.timers| && forall e :: e in s.timers ==> e.addr in s.heap
    requires Indexed(s.heap, s.timers[n..], s.active - IdsOf(s, s.timers[..n]))
    ensures Indexed(s.heap, s.timers[n + 1..], s.active - IdsOf(s, s.timers[..n + 1]))
  {
    hide Indexed, IdsOf;
    IndexedTail(s.heap, s.timers[n..], s.active - IdsOf(s, s.timers[..n]));
    IdsOfExtend(s, n);
    assert s.timers[n..][1..] == s.timers[n + 1..];
  }

  lemma IdsOfExtend(s: State, n: nat)
    requires n < |s.timers| && forall e :: e in s.timers ==> e.addr in s.heap
    ensures s.active - IdsOf(s, s.timers[..n + 1]) == s.active - IdsOf(s, s.timers[..n]) - {IdOf(s, s.timers[n].addr)}
  {
    assert s.timers[..n + 1] == s.timers[..n] + [s.timers[n]];
    assert IdsOf(s, s.timers[..n + 1]) == IdsOf(s, s.timers[..n]) + {IdOf(s, s.timers[n].addr)};
  }

  // ----- every transition keeps the rest of the invariant -----

  lemma AdvanceInv(s: State, t: int)
    requires Inv(s) && s.clock <= t
    ensures Inv(Advance(s, t))
  {
    var r := Advance(s, t);
    assert forall a :: a in s.heap ==> HomeInv(s, a) == HomeInv(r, a);
  }

  lemma NewTimerPartition(s: State, addr: Addr, when: int, repeat: bool, interval: nat)
    requires IndexInv(s) && BatchInv(s) && PartitionInv(s) && addr !in s.heap
    ensures PartitionInv(NewTimer(s, addr, when, repeat, interval))
  {
    var r := NewTimer(s, addr, when, repeat, interval);
    assert Entry(when, addr) !in s.timers && Entry(when, addr) !in s.batch;
    assert s.numCreated + 1 !in s.home;
    forall a | a in r.heap ensures HomeInv(r, a) {
      if a != addr {
        assert HomeInv(s, a);
      }
    }
  }

  lemma NewTimerInv(s: State, addr: Addr, when: int, repeat: bool, interval: nat)
    requires Inv(s) && addr !in s.heap
    ensures Inv(NewTimer(s, addr, when, repeat, interval))
  {
    NewTimerPartition(s, addr, when, repeat, interval);
    var r := NewTimer(s, addr, when, repeat, interval);
    assert forall a :: a in s.heap ==> a in r.heap && r.heap[a] == s.heap[a];
  }

  lemma AddTimerPartition(s: State, a: Addr, t: int)
    requires IndexInv(s) && PartitionInv(s) && a in s.heap && s.heap[a].sequence !in s.inserted
    ensures PartitionInv(AddTimer(s, a, t))
  {
    var r := AddTimer(s, a, t);
    assert r.heap == s.heap && r.deleted == s.deleted;
    forall b | b in r.heap ensures HomeInv(r, b) {
      assert HomeInv(s, b) && HomeInv(s, a);
      assert Queued(r, b) == (Queued(s, b) || b == a);
    }
  }

  lemma AddTimerFd(s: State, a: Addr, t: int)
    requires IndexInv(s) && FdInv(s) && a in s.heap && !Queued(s, a) && s.clock <= t
    ensures FdInv(AddTimer(s, a, t))
  {
    ResetTimerfdDeadline(s.heap[a].expiration, t);
  }

  lemma AddTimerInv(s: State, a: Addr, t: int)
    requires Inv(s) && a in s.heap && s.heap[a].sequence !in s.inserted && s.clock <= t
    ensures Inv(AddTimer(s, a, t))
  {
    IndexedInsert(s.heap, s.timers, s.active, a, s.heap[a]);
    assert s.heap[a := s.heap[a]] == s.heap;
    AddTimerPartition(s, a, t);
    AddTimerFd(s, a, t);
  }

  lemma DeletePartition(s: State, r: State, a: Addr)
    requires PartitionInv(s) && a in s.heap && s.heap[a].sequence in s.inserted
    requires r.heap == s.heap - {a} && r.deleted == s.deleted + {s.heap[a].sequence}
    requires r.inserted == s.inserted && r.numCreated == s.numCreated && r.home == s.home
    requires forall b :: b in r.heap ==> (Queued(r, b) || InBatch(r, b) <==> Queued(s, b) || InBatch(s, b))
    ensures PartitionInv(r)
  {
    forall b | b in r.heap ensures HomeInv(r, b) {
      assert HomeInv(s, b) && HomeInv(s, a);
    }
  }

  lemma CancelPartition(s: State, id: TimerId)
    requires IndexInv(s) && PartitionInv(s) && id in s.active
    ensures PartitionInv(Cancel(s, id))
  {
    var r := Cancel(s, id);
    assert forall b :: b in r.heap ==> Queued(r, b) == Queued(s, b);
    DeletePartition(s, r, id.addr);
  }

  lemma CancelBatch(s: State, id: TimerId)
    requires IndexInv(s) && BatchInv(s) && id in s.active
    ensures BatchInv(Cancel(s, id))
  {
    var r := Cancel(s, id);
    forall e | e in s.batch ensures e.addr in r.heap && r.heap[e.addr] == s.heap[e.addr] && e !in r.timers {
      assert EntryOf(s, e.addr) == e && e !in s.timers;
    }
  }

  lemma CancelInv(s: State, id: TimerId)
    requires Inv(s)
    ensures Inv(Cancel(s, id))
  {
    if id in s.active {
      IndexedErase(s.heap, s.timers, s.active, id);
      CancelPartition(s, id);
      CancelBatch(s, id);
    }
  }

  lemma DueSplit(s: seq<Entry>, now: int)
    requires Sorted(s)
    ensures var n := DueCount(s, now);
            && s == s[..n] + s[n..] && Sorted(s[..n])
            && (forall e :: e in s[..n] ==> e in s && e.when <= now)
            && (forall e :: e in s[n..] ==> e in s && now < e.when)
  {
  }

  /** getExpired removes exactly the timers due at or before `now`, and returns them in expiration order. */
  lemma GetExpiredExact(s: State, now: int)
    requires IndexInv(s)
    ensures var (q, expired) := GetExpired(s, now);
            && IndexInv(q) && Sorted(expired) && s.timers == expired + q.timers
            && (forall e :: e in s.timers ==> (e in expired <==> e.when <= now) && (e in q.timers <==> now < e.when))
  {
    DueSplit(s.timers, now);
    IndexedDrop(s, DueCount(s.timers, now));
    var (q, expired) := GetExpired(s, now);
    assert forall e :: e in s.timers <==> e in expired || e in q.timers;
  }

  lemma StartBatchPartition(s: State, now: int)
    requires IndexInv(s) && PartitionInv(s) && s.batch == []
    ensures PartitionInv(StartBatch(s, now))
  {
    var r := StartBatch(s, now);
    var n := DueCount(s.timers, now);
    assert s.timers == r.batch + r.timers;
    assert forall e :: e in s.timers <==> e in r.batch || e in r.timers;
    assert r.heap == s.heap && r.inserted == s.inserted && r.deleted == s.deleted;
    forall a | a in r.heap ensures HomeInv(r, a) {
      assert HomeInv(s, a);
    }
  }

  lemma StartBatchInv(s: State, now: int)
    requires Inv(s) && !s.calling && s.clock <= now
    ensures Inv(StartBatch(s, now))
  {
    assert 0 < now && s.batch == [];
    hide Indexed, BatchInv, PartitionInv, FdInv, StartBatch;
    StartBatchFields(s, now);
    StartBatchIndex(s, now);
    StartBatchBatch(s, now);
    StartBatchPartition(s, now);
    StartBatchFd(s, now);
  }

  lemma StartBatchFields(s: State, now: int)
    requires IndexInv(s)
    ensures var r := StartBatch(s, now);
            && r.log == s.log && r.inserted == s.inserted && r.batchNo == s.batchNo + 1
            && (forall e :: e in r.timers ==> now < e.when)
  {
    DueSplit(s.timers, now);
  }

  lemma DueOne(e: Entry, now: int)
    requires e.when <= now
    ensures DueCount([e], now) == 1
  {
    assert DueCount([e][1..], now) == 0;
  }

  lemma StartBatchIndex(s: State, now: int)
    requires IndexInv(s)
    ensures IndexInv(StartBatch(s, now))
  {
    assert Sorted(s.timers);
    hide Indexed, DueCount, IdsOf;
    IndexedDrop(s, DueCount(s.timers, now));
  }

  lemma StartBatchBatch(s: State, now: int)
    requires IndexInv(s) && 0 < now
    ensures BatchInv(StartBatch(s, now))
  {
    DueSplit(s.timers, now);
    hide DueCount;
  }

  lemma StartBatchFd(s: State, now: int)
    requires IndexInv(s) && FdInv(s) && s.clock <= now
    ensures FdInv(StartBatch(s, now))
  {
    StartBatchFields(s, now);
    hide DueCount, IdsOf;
    var r := StartBatch(s, now);
    assert r.timers != [] ==> r.timers[0] in r.timers;
  }

  lemma RunTimerInv(s: State)
    requires Inv(s) && s.calling && s.ran < |s.batch|
    ensures Inv(RunTimer(s))
  {
    assert s.batch[s.ran] in s.batch;
  }

  lemma BatchHead(s: State)
    requires IndexInv(s) && BatchInv(s) && s.batch != []
    ensures var a := s.batch[0].addr; a in s.heap && InBatch(s, a) && !Queued(s, a)
    ensures forall e :: e in s.batch[1..] <==> e in s.batch && e.addr != s.batch[0].addr
  {
    var e0 := s.batch[0];
    assert e0 in s.batch;
    forall e | e in s.batch[1..] ensures e.addr != e0.addr {
      var i :| 1 <= i < |s.batch| && s.batch[i] == e;
      assert Less(e0, e) && e in s.batch;
    }
    forall e | e in s.batch && e.addr != e0.addr ensures e in s.batch[1..] {
      assert s.batch == [e0] + s.batch[1..];
    }
  }

  lemma ResetOneIndex(s: State)
    requires IndexInv(s) && BatchInv(s) && s.batch != []
    ensures IndexInv(ResetOne(s))
  {
    hide Indexed, Sorted, BatchInv;
    BatchHead(s);
    var a := s.batch[0].addr;
    NotQueuedAt(s, a);
    if s.heap[a].repeat && IdOf(s, a) !in s.canceling {
      IndexedInsert(s.heap, s.timers, s.active, a, s.heap[a].(expiration := s.now + s.heap[a].interval));
    } else {
      IndexedForget(s.heap, s.timers, s.active, a);
    }
  }

  lemma ResetOneBatch(s: State)
    requires IndexInv(s) && BatchInv(s) && s.batch != []
    ensures BatchInv(ResetOne(s))
  {
    BatchHead(s);
    var r := ResetOne(s);
    assert Sorted(r.batch);
    forall e | e in r.batch
      ensures e.addr in r.heap && e == EntryOf(r, e.addr) && e !in r.timers && e.when <= r.now
    {
      assert e in s.batch && e.addr != s.batch[0].addr;
    }
  }

  /** What one iteration of reset does to the other timers: nothing. */
  lemma ResetOneOthers(s: State)
    requires IndexInv(s) && BatchInv(s) && s.batch != []
    ensures forall b :: b in s.heap && b != s.batch[0].addr ==>
              && b in ResetOne(s).heap && ResetOne(s).heap[b] == s.heap[b]
              && Queued(ResetOne(s), b) == Queued(s, b) && InBatch(ResetOne(s), b) == InBatch(s, b)
  {
    BatchHead(s);
  }

  lemma ResetOnePartition(s: State)
    requires IndexInv(s) && BatchInv(s) && PartitionInv(s) && s.batch != []
    ensures PartitionInv(ResetOne(s))
  {
    BatchHead(s);
    ResetOneOthers(s);
    var a := s.batch[0].addr;
    var r := ResetOne(s);
    if s.heap[a].repeat && IdOf(s, a) !in s.canceling {
      forall b | b in r.heap ensures HomeInv(r, b) {
        assert HomeInv(s, b);
        assert Queued(r, a);
      }
    } else {
      DeletePartition(s, r, a);
    }
  }

  lemma ResetOneInv(s: State)
    requires Inv(s) && s.calling && s.batch != []
    ensures Inv(ResetOne(s)) && ResetOne(s).calling
  {
    hide Indexed, BatchInv, PartitionInv, FdInv, LogInv, ResetOne;
    ResetOneIndex(s);
    ResetOneBatch(s);
    ResetOnePartition(s);
    ResetOneRest(s);
  }

  lemma BatchNow(s: State)
    requires BatchInv(s) && s.calling
    ensures 0 < s.now
  {
  }

  lemma ResetOneRest(s: State)
    requires IndexInv(s) && BatchInv(s) && FdInv(s) && LogInv(s) && s.calling && s.batch != []
    ensures FdInv(ResetOne(s)) && LogInv(ResetOne(s)) && ResetOne(s).calling
  {
    hide Indexed, Sorted, BatchInv;
    BatchHead(s);
    NotQueuedAt(s, s.batch[0].addr);
    BatchNow(s);
    var r := ResetOne(s);
    assert r.fd == s.fd && r.clock == s.clock && r.log == s.log && r.batchNo == s.batchNo && r.inserted == s.inserted;
    assert r.timers == s.timers || r.timers[0].when > 0 || (s.timers != [] && r.timers[0] == s.timers[0]);
  }

  lemma EndBatchFd(s: State, r: State, t: int)
    requires FdInv(s) && r.timers == s.timers && !r.calling && r.clock == t && s.clock <= t
    requires r.fd == if s.timers != [] && 0 < s.timers[0].when then ResetTimerfd(s.timers[0].when, t) else s.fd
    ensures FdInv(r)
  {
    if s.timers != [] {
      ResetTimerfdDeadline(s.timers[0].when, t);
    }
  }

  lemma EndBatchInv(s: State, t: int)
    requires Inv(s) && s.calling && s.clock <= t
    ensures Inv(EndBatch(s, t))
  {
    ResetKeepsClock(s);
    hide Indexed, PartitionInv, FdInv, LogInv, ResetAll, ResetTimerfd;
    var q, r := ResetAll(s), EndBatch(s, t);
    EndBatchFd(q, r, t);
    SameTimers(q, r);
  }

  /** The partition and the log do not look at the clock, the flag and the timerfd. */
  lemma SameTimers(q: State, r: State)
    requires PartitionInv(q) && LogInv(q)
    requires r == q.(calling := r.calling, ran := r.ran, clock := r.clock, fd := r.fd)
    ensures PartitionInv(r) && LogInv(r)
  {
    assert forall a :: a in q.heap ==> HomeInv(q, a) == HomeInv(r, a);
  }

  lemma {:induction false} ResetKeepsClock(s: State)
    requires Inv(s) && s.calling
    ensures ResetAll(s).clock == s.clock
    decreases |s.batch|
  {
    if s.batch != [] {
      ResetOneInv(s);
      ResetKeepsClock(ResetOne(s));
    }
  }
}
