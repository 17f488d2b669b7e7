/**
 * The growable byte buffer of muduo/net/Buffer.h: prependable | readable | writable.
 * Its abstract value is the readable region, and every method is the byte-queue operation it names.
 */
module Buffers {
  import opened Wire

  const CHEAP_PREPEND: nat := 8
  const INITIAL_SIZE: nat := 1024
  const EXTRA_BUF: nat := 65536

  /** What readv reports: an errno, or the bytes it scattered over the two areas. */
  datatype ReadvResult = Failed(errno: int) | Got(bytes: seq<byte>)

  /** The layout of a buffer: bytes of headroom, the readable bytes, bytes of writable tail. */
  datatype Layout = Layout(front: nat, bytes: seq<byte>, back: nat)

  predicate WellFormed(q: Layout) {
    CHEAP_PREPEND <= q.front + |q.bytes| + q.back
  }

  const EMPTY_LAYOUT := Layout(CHEAP_PREPEND, [], INITIAL_SIZE)

  /** Room for `len` more bytes: unchanged, slid down to the cheap headroom, or grown by exactly what is missing. */
  function Roomy(q: Layout, len: nat): (r: Layout)
    ensures r.bytes == q.bytes && len <= r.back
    ensures WellFormed(q) ==> WellFormed(r)
  {
    if len <= q.back then q
    else if q.back + q.front < len + CHEAP_PREPEND then q.(back := len)
    else Layout(CHEAP_PREPEND, q.bytes, q.back + q.front - CHEAP_PREPEND)
  }

  /** The length of the vector. */
  function Size(q: Layout): nat {
    q.front + |q.bytes| + q.back
  }

  /** The vector grows only when sliding down would not make the room, and then by exactly what is missing. */
  lemma RoomySize(q: Layout, len: nat)
    requires WellFormed(q)
    ensures var r := Roomy(q, len);
            && (q.back < len && q.front - CHEAP_PREPEND + q.back < len ==> Size(r) == Size(q) + (len - q.back) && r.front == q.front)
            && (q.back < len <= q.front - CHEAP_PREPEND + q.back ==> Size(r) == Size(q) && r.front == CHEAP_PREPEND)
            && (len <= q.back ==> r == q)
  {
  }

  /** `s` behind the readable bytes, within the writable tail. */
  function Filled(q: Layout, s: seq<byte>): Layout
    requires |s| <= q.back
  {
    Layout(q.front, q.bytes + s, q.back - |s|)
  }

  function Appended(q: Layout, s: seq<byte>): Layout {
    Filled(Roomy(q, |s|), s)
  }

  function Dropped(q: Layout, len: nat): Layout
    requires WellFormed(q) && len <= |q.bytes|
  {
    if len < |q.bytes| then Layout(q.front + len, q.bytes[len..], q.back)
    else Layout(CHEAP_PREPEND, [], q.front + |q.bytes| + q.back - CHEAP_PREPEND)
  }

  /** One scattered read: as much as fits into the tail, the rest appended from the stack area. */
  function Scattered(q: Layout, s: seq<byte>): Layout {
    if |s| <= q.back then Filled(q, s) else Appended(Filled(q, s[..q.back]), s[q.back..])
  }

  function Shrunk(q: Layout, reserve: nat): Layout {
    Filled(Roomy(EMPTY_LAYOUT, |q.bytes| + reserve), q.bytes)
  }

  /** Taking and adding bytes within the vector keeps its length; a shrunk one is as long as a new one, or as needed. */
  lemma SizeKept(q: Layout, len: nat, s: seq<byte>)
    requires WellFormed(q) && len <= |q.bytes| && |s| <= q.back
    ensures Size(Dropped(q, len)) == Size(q) && Size(Filled(q, s)) == Size(q)
    ensures Dropped(q, len).back == (if len < |q.bytes| then q.back else Size(q) - CHEAP_PREPEND)
    ensures Filled(q, s).front == q.front
  {
  }

  lemma ShrunkSize(q: Layout, reserve: nat)
    ensures var needed := |q.bytes| + reserve;
            Size(Shrunk(q, reserve)) == CHEAP_PREPEND + (if needed <= 1024 then 1024 else needed) && Shrunk(q, reserve).front == 8
  {
  }

  lemma ShrunkFields(q: Layout, reserve: nat)
    ensures Shrunk(q, reserve).bytes == q.bytes && reserve <= Shrunk(q, reserve).back
  {
  }

  class Buffer {
    var data: array<byte>
    var readerIndex: nat
    var writerIndex: nat

    ghost predicate Valid()
      reads this
    {
      readerIndex <= writerIndex <= data.Length && CHEAP_PREPEND <= data.Length
    }

    /** The readable bytes. */
    ghost function Contents(): (s: seq<byte>)
      requires Valid()
      reads this, data
      ensures |s| == ReadableBytes()
    {
      data[readerIndex..writerIndex]
    }

    /** Contents and layout together. */
    ghost function View(): (q: Layout)
      requires Valid()
      reads this, data
      ensures WellFormed(q)
    {
      Layout(PrependableBytes(), Contents(), WritableBytes())
    }

    constructor ()
      ensures Valid() && fresh(data)
      ensures Contents() == [] && View() == EMPTY_LAYOUT
      ensures WritableBytes() == INITIAL_SIZE && PrependableBytes() == CHEAP_PREPEND
    {
      data := new byte[CHEAP_PREPEND + INITIAL_SIZE];
      readerIndex := CHEAP_PREPEND;
      writerIndex := CHEAP_PREPEND;
    }

    function ReadableBytes(): nat
      requires Valid()
      reads this
    {
      writerIndex - readerIndex
    }

    function WritableBytes(): nat
      requires Valid()
      reads this
    {
      data.Length - writerIndex
    }

    function PrependableBytes(): nat
      reads this
    {
      readerIndex
    }

    /** The readable bytes as a copied-out string. */
    method Peek() returns (s: seq<byte>)
      requires Valid()
      ensures s == Contents()
    {
      s := data[readerIndex..writerIndex];
    }

    /** Offset of the first CRLF at or after `start`, or the readable length when there is none. */
    method FindCRLF(start: nat) returns (r: nat)
      requires Valid() && start <= ReadableBytes()
      ensures r == start + FirstCRLF(Contents()[start..])
    {
      r := start;
      var n := ReadableBytes();
      while r + 1 < n && !(data[readerIndex + r] == CR && data[readerIndex + r + 1] == LF)
        invariant start <= r <= n
        invariant forall j: nat :: j < r - start ==> !CRLFAt(Contents()[start..], j)
      {
        assert CRLFAt(Contents()[start..], r - start) ==
               (data[readerIndex + r] == CR && data[readerIndex + r + 1] == LF);
        r := r + 1;
      }
      if r + 1 < n {
        FirstCRLFUnique(Contents()[start..], r - start);
      } else {
        r := n;
        assert forall j: nat :: CRLFAt(Contents()[start..], j) ==> j < n - 1 - start;
      }
    }

    method RetrieveAll()
      requires Valid()
      modifies this
      ensures Valid() && data == old(data)
      ensures Contents() == [] && readerIndex == CHEAP_PREPEND
      ensures View() == Dropped(old(View()), old(ReadableBytes()))
    {
      readerIndex := CHEAP_PREPEND;
      writerIndex := CHEAP_PREPEND;
    }

    /** Drops the first `len` readable bytes. */
    method Retrieve(len: nat)
      requires Valid() && len <= ReadableBytes()
      modifies this
      ensures Valid() && data == old(data)
      ensures Contents() == old(Contents())[len..]
      ensures View() == Dropped(old(View()), len)
    {
      if len < ReadableBytes() {
        readerIndex := readerIndex + len;
      } else {
        RetrieveAll();
      }
    }

    method RetrieveAsString(len: nat) returns (s: seq<byte>)
      requires Valid() && len <= ReadableBytes()
      modifies this
      ensures Valid() && data == old(data)
      ensures s == old(Contents())[..len] && Contents() == old(Contents())[len..]
    {
      s := data[readerIndex..readerIndex + len];
      assert s == Contents()[..len];
      Retrieve(len);
    }

    /**
     * Makes room for `len` more bytes, by growing the vector or by sliding the readable bytes down over
     * themselves. Only the caller's test `WritableBytes() < len` justifies the assertion in the second branch.
     */
    method MakeSpace(len: nat)
      requires Valid() && WritableBytes() < len
      modifies this, data
      ensures Valid() && (data == old(data) || fresh(data))
      ensures Contents() == old(Contents()) && len <= WritableBytes()
      ensures View() == Roomy(old(View()), len)
    {
      if WritableBytes() + PrependableBytes() < len + CHEAP_PREPEND {
        var grown := new byte[writerIndex + len];
        forall i | 0 <= i < writerIndex {
          grown[i] := data[i];
        }
        data := grown;
      } else {
        assert CHEAP_PREPEND < readerIndex;
        Slide();
      }
    }

    /** std::copy of the readable bytes down to the cheap headroom, over themselves, first byte first. */
    method Slide()
      requires Valid() && CHEAP_PREPEND < readerIndex
      modifies this`readerIndex, this`writerIndex, data
      ensures Valid() && data == old(data) && readerIndex == CHEAP_PREPEND && Contents() == old(Contents())
    {
      var readable := ReadableBytes();
      var i := 0;
      while i < readable
        invariant 0 <= i <= readable
        invariant readerIndex == old(readerIndex) && writerIndex == old(writerIndex) && data == old(data)
        invariant data[CHEAP_PREPEND..CHEAP_PREPEND + i] == old(Contents())[..i]
        invariant data[readerIndex + i..writerIndex] == old(Contents())[i..]
      {
        assert data[readerIndex + i] == data[readerIndex + i..writerIndex][0];
        data[CHEAP_PREPEND + i] := data[readerIndex + i];
        i := i + 1;
      }
      readerIndex := CHEAP_PREPEND;
      writerIndex := readerIndex + readable;
    }

    method EnsureWritableBytes(len: nat)
      requires Valid()
      modifies this, data
      ensures Valid() && (data == old(data) || fresh(data))
      ensures Contents() == old(Contents()) && len <= WritableBytes()
      ensures View() == Roomy(old(View()), len)
    {
      if WritableBytes() < len {
        MakeSpace(len);
      }
    }

    method Append(s: seq<byte>)
      requires Valid()
      modifies this, data
      ensures Valid() && (data == old(data) || fresh(data))
      ensures Contents() == old(Contents()) + s
      ensures View() == Appended(old(View()), s)
    {
      EnsureWritableBytes(|s|);
      AppendWithin(s);
    }

    method Prepend(s: seq<byte>)
      requires Valid() && |s| <= PrependableBytes()
      modifies this, data
      ensures Valid() && data == old(data)
      ensures Contents() == s + old(Contents())
      ensures View() == Layout(old(PrependableBytes()) - |s|, s + old(Contents()), old(WritableBytes()))
    {
      ghost var was := Contents();
      readerIndex := readerIndex - |s|;
      forall i | 0 <= i < |s| {
        data[readerIndex + i] := s[i];
      }
      assert data[readerIndex..readerIndex + |s|] == s && data[readerIndex + |s|..writerIndex] == was;
    }

    /** A second buffer with the same readable bytes and the room they and `reserve` need. */
    method Reallocated(reserve: nat) returns (other: Buffer)
      requires Valid()
      ensures fresh(other) && fresh(other.data) && other.Valid() && other.View() == Shrunk(View(), reserve)
    {
      hide Roomy;
      other := new Buffer();
      other.EnsureWritableBytes(ReadableBytes() + reserve);
      var bytes := Peek();
      other.AppendWithin(bytes);
    }

    /** Reallocates to the readable bytes plus `reserve`, by building a second buffer and swapping. */
    method Shrink(reserve: nat)
      requires Valid()
      modifies this
      ensures Valid() && fresh(data)
      ensures Contents() == old(Contents()) && reserve <= WritableBytes()
      ensures View() == Shrunk(old(View()), reserve)
    {
      ShrunkFields(View(), reserve);
      var other := Reallocated(reserve);
      hide Shrunk;
      data, readerIndex, writerIndex := other.data, other.readerIndex, other.writerIndex;
      assert View() == other.View();
    }

    /** `Append` where the room is already there: nothing moves. */
    method AppendWithin(s: seq<byte>)
      requires Valid() && |s| <= WritableBytes()
      modifies this, data
      ensures Valid() && data == old(data)
      ensures Contents() == old(Contents()) + s
      ensures View() == Filled(old(View()), s)
    {
      ghost var was := Contents();
      forall i | 0 <= i < |s| {
        data[writerIndex + i] := s[i];
      }
      assert data[readerIndex..writerIndex] == was && data[writerIndex..writerIndex + |s|] == s;
      writerIndex := writerIndex + |s|;
    }

    /**
     * One readv over the writable tail and a 64 KiB stack area; the spill is appended.
     * A failed read changes nothing but the reported errno.
     */
    method ReadFd(res: ReadvResult) returns (n: int, savedErrno: int)
      requires Valid()
      requires res.Got? ==> |res.bytes| <= WritableBytes() + EXTRA_BUF
      modifies this, data
      ensures Valid() && (data == old(data) || fresh(data))
      ensures res.Failed? ==> n == -1 && savedErrno == res.errno && Contents() == old(Contents())
      ensures res.Got? ==> n == |res.bytes| && savedErrno == 0 && Contents() == old(Contents()) + res.bytes
      ensures View() == if res.Got? then Scattered(old(View()), res.bytes) else old(View())
    {
      hide Roomy;
      savedErrno := 0;
      var writable := WritableBytes();
      match res
      case Failed(errno) =>
        n := -1;
        savedErrno := errno;
      case Got(bytes) =>
        n := |bytes|;
        if n <= writable {
          AppendWithin(bytes);
        } else {
          AppendWithin(bytes[..writable]);
          Append(bytes[writable..]);
          assert bytes[..writable] + bytes[writable..] == bytes;
        }
    }

    method AppendInt32(x: int)
      requires Valid() && Fits(4, x)
      modifies this, data
      ensures Valid() && (data == old(data) || fresh(data))
      ensures Contents() == old(Contents()) + EncodeInt(4, x)
      ensures View() == Appended(old(View()), EncodeInt(4, x))
    {
      Append(EncodeInt(4, x));
    }

    method PrependInt32(x: int)
      requires Valid() && Fits(4, x) && 4 <= PrependableBytes()
      modifies this, data
      ensures Valid() && data == old(data)
      ensures Contents() == EncodeInt(4, x) + old(Contents())
    {
      Prepend(EncodeInt(4, x));
    }

    method PeekInt32() returns (x: int)
      requires Valid() && 4 <= ReadableBytes()
      ensures x == DecodeInt(Contents()[..4]) && Fits(4, x)
    {
      assert data[readerIndex..readerIndex + 4] == Contents()[..4];
      x := DecodeInt(data[readerIndex..readerIndex + 4]);
    }

    method ReadInt32() returns (x: int)
      requires Valid() && 4 <= ReadableBytes()
      modifies this
      ensures Valid() && data == old(data)
      ensures x == DecodeInt(old(Contents())[..4]) && Contents() == old(Contents())[4..]
    {
      x := PeekInt32();
      Retrieve(4);
    }
  }

  /** Operations a buffer goes through. */
  datatype QueueOp =
    | Put(s: seq<byte>) | Push(s: seq<byte>) | Read(s: seq<byte>)
    | Get(len: nat) | GetAll | Squeeze(reserve: nat)

  /** What each operation's own assertion asks, and readv's bound: the writable tail and the 64 KiB stack area. */
  predicate LegalOp(q: Layout, op: QueueOp)
  {
    && (op.Get? ==> op.len <= |q.bytes|)
    && (op.Push? ==> |op.s| <= q.front)
    && (op.Read? ==> |op.s| <= q.back + EXTRA_BUF)
  }

  function ApplyOp(q: Layout, op: QueueOp): (r: Layout)
    requires WellFormed(q) && LegalOp(q, op)
    ensures WellFormed(r)
  {
    match op
    case Put(s) => Appended(q, s)
    case Push(s) => Layout(q.front - |s|, s + q.bytes, q.back)
    case Read(s) => Scattered(q, s)
    case Get(len) => Dropped(q, len)
    case GetAll => Dropped(q, |q.bytes|)
    case Squeeze(reserve) => Shrunk(q, reserve)
  }

  predicate LegalOps(q: Layout, ops: seq<QueueOp>)
    requires WellFormed(q)
    decreases |ops|
  {
    ops == [] || (LegalOp(q, ops[0]) && LegalOps(ApplyOp(q, ops[0]), ops[1..]))
  }

  function ApplyOps(q: Layout, ops: seq<QueueOp>): (r: Layout)
    requires WellFormed(q) && LegalOps(q, ops)
    ensures WellFormed(r)
    decreases |ops|
  {
    if ops == [] then q else ApplyOps(ApplyOp(q, ops[0]), ops[1..])
  }

  /** The byte queue itself: no layout, only the sequence operations the methods are named after. */
  function QueueStep(bytes: seq<byte>, op: QueueOp): seq<byte> {
    match op
    case Put(s) => bytes + s
    case Push(s) => s + bytes
    case Read(s) => bytes + s
    case Get(len) => if len <= |bytes| then bytes[len..] else []
    case GetAll => []
    case Squeeze(_) => bytes
  }

  function QueueSteps(bytes: seq<byte>, ops: seq<QueueOp>): seq<byte>
    decreases |ops|
  {
    if ops == [] then bytes else QueueSteps(QueueStep(bytes, ops[0]), ops[1..])
  }

  /** Whatever the layout does, the readable bytes are the byte queue. */
  lemma {:induction false} LayoutIsQueue(q: Layout, ops: seq<QueueOp>)
    requires WellFormed(q) && LegalOps(q, ops)
    ensures ApplyOps(q, ops).bytes == QueueSteps(q.bytes, ops)
    decreases |ops|
  {
    if ops != [] {
      StepIsQueue(q, ops[0]);
      LayoutIsQueue(ApplyOp(q, ops[0]), ops[1..]);
    }
  }

  lemma StepIsQueue(q: Layout, op: QueueOp)
    requires WellFormed(q) && LegalOp(q, op)
    ensures ApplyOp(q, op).bytes == QueueStep(q.bytes, op)
  {
    hide Roomy;
    if op.Read? && |op.s| > q.back {
      assert op.s[..q.back] + op.s[q.back..] == op.s;
    }
  }

  method Perform(b: Buffer, op: QueueOp)
    requires b.Valid() && LegalOp(b.View(), op)
    modifies b, b.data
    ensures b.Valid() && (b.data == old(b.data) || fresh(b.data))
    ensures b.View() == ApplyOp(old(b.View()), op)
  {
    match op
    case Put(s) => b.Append(s);
    case Push(s) => b.Prepend(s);
    case Read(s) => var _, _ := b.ReadFd(Got(s));
    case Get(len) => b.Retrieve(len);
    case GetAll => b.RetrieveAll();
    case Squeeze(reserve) => b.Shrink(reserve);
  }

  /**
   * Over every sequence of operations whose own assertions hold, the buffer is the byte queue, however often it moves,
   * grows or reallocates, and its headroom and tail are those of the layout.
   */
  method Replay(b: Buffer, ops: seq<QueueOp>)
    requires b.Valid() && LegalOps(b.View(), ops)
    modifies b, b.data
    ensures b.Valid() && (b.data == old(b.data) || fresh(b.data))
    ensures b.View() == ApplyOps(old(b.View()), ops)
    ensures b.Contents() == QueueSteps(old(b.Contents()), ops)
    decreases |ops|
  {
    LayoutIsQueue(b.View(), ops);
    hide ApplyOp, LegalOp;
    if ops != [] {
      Perform(b, ops[0]);
      Replay(b, ops[1..]);
    }
  }

  /** An integer prepended to any buffer reads back and leaves the buffer as it was. */
  method PrependThenRead(b: Buffer, x: int) returns (y: int)
    requires b.Valid() && Fits(4, x) && 4 <= b.PrependableBytes()
    modifies b, b.data
    ensures b.Valid() && y == x && b.Contents() == old(b.Contents())
  {
    b.PrependInt32(x);
    assert b.Contents()[..4] == EncodeInt(4, x);
    DecodeEncodeInt(4, x);
    y := b.ReadInt32();
  }
}
