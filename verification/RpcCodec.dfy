/** ADLER32 as defined in section 2.2 of RFC 1950. */
module Adler {
  import opened Wire

  const MOD: nat := 65521

  function A(s: seq<byte>): (r: nat)
    ensures r < MOD
  {
    if s == [] then 1 else (A(s[..|s| - 1]) + s[|s| - 1]) % MOD
  }

  function B(s: seq<byte>): (r: nat)
    ensures r < MOD
  {
    if s == [] then 0 else (B(s[..|s| - 1]) + A(s)) % MOD
  }

  function Adler32(s: seq<byte>): (r: nat)
    ensures r < 0x1_0000_0000
  {
    B(s) * 65536 + A(s)
  }

  function Sum(s: seq<byte>): nat {
    if s == [] then 0 else Sum(s[..|s| - 1]) + s[|s| - 1]
  }

  lemma {:induction false} AIsSum(s: seq<byte>)
    ensures A(s) == (1 + Sum(s)) % MOD
  {
    if s != [] {
      var front := s[..|s| - 1];
      AIsSum(front);
      ResidueAdd(1 + Sum(front), s[|s| - 1]);
    }
  }

  lemma ResidueAdd(x: nat, y: nat)
    ensures (x % MOD + y) % MOD == (x + y) % MOD
  {
    var q, r := x / MOD, x % MOD;
    assert x + y == MOD * q + (r + y);
    var q', r' := (r + y) / MOD, (r + y) % MOD;
    assert x + y == MOD * (q + q') + r';
  }

  lemma {:induction false} SumUpdate(s: seq<byte>, i: nat, b: byte)
    requires i < |s|
    ensures Sum(s[i := b]) == Sum(s) - s[i] + b
  {
    var t, front := s[i := b], s[..|s| - 1];
    if i == |s| - 1 {
      assert t[..|t| - 1] == front;
    } else {
      SumUpdate(front, i, b);
      assert t[..|t| - 1] == front[i := b];
    }
  }

  /** Any change of one byte, at any position of any input, changes the checksum. */
  lemma OneByteChangesAdler32(s: seq<byte>, i: nat, b: byte)
    requires i < |s| && b != s[i]
    ensures Adler32(s[i := b]) != Adler32(s)
  {
    hide A, B, Sum;
    AIsSum(s);
    AIsSum(s[i := b]);
    SumUpdate(s, i, b);
    NearbyResiduesDiffer(1 + Sum(s), 1 + Sum(s[i := b]));
  }

  // ----- closed forms -----

  /** Each byte counted once for itself and once for every byte behind it. */
  function WeightedSum(s: seq<byte>): nat {
    if s == [] then 0 else WeightedSum(s[..|s| - 1]) + Sum(s)
  }

  lemma {:induction false} BIsWeightedSum(s: seq<byte>)
    ensures B(s) == (|s| + WeightedSum(s)) % MOD
  {
    if s != [] {
      var front := s[..|s| - 1];
      BIsWeightedSum(front);
      AIsSum(s);
      var x, y := |front| + WeightedSum(front), 1 + Sum(s);
      ResidueAdd(x, y % MOD);
      ResidueAdd(y, x);
      assert (x + y % MOD) % MOD == (x + y) % MOD;
    }
  }

  /** The weight of a byte is its distance from the end. */
  lemma {:induction false} WeightByPosition(s: seq<byte>, b: byte)
    ensures WeightedSum([b] + s) == (|s| + 1) * b + WeightedSum(s) && Sum([b] + s) == b + Sum(s)
    decreases |s|
  {
    var t := [b] + s;
    if s == [] {
      assert t[..|t| - 1] == [];
      assert WeightedSum(t) == Sum(t) == b;
    } else {
      var front := s[..|s| - 1];
      assert t[..|t| - 1] == [b] + front;
      WeightByPosition(front, b);
    }
  }

  /** The low half of the word is one plus the sum, the high half the length plus the weighted sum, both modulo 65521. */
  lemma AdlerHalves(s: seq<byte>)
    ensures Adler32(s) % 65536 == (1 + Sum(s)) % 65521 && Adler32(s) / 65536 == (|s| + WeightedSum(s)) % 65521
  {
    AIsSum(s);
    BIsWeightedSum(s);
  }

  /** The example value of the algorithm: ADLER32 of "Wikipedia" is 0x11E60398. */
  lemma AdlerExample()
    ensures Adler32([87, 105, 107, 105, 112, 101, 100, 105, 97]) == 0x11E60398
  {
    hide A, B;
    var s: seq<byte> := [87, 105, 107, 105, 112, 101, 100, 105, 97];
    AdlerEmpty();
    assert s[..0] == [];
    AdlerNext(s, 0, 1, 0);
    AdlerNext(s, 1, 88, 88);
    AdlerNext(s, 2, 193, 281);
    AdlerNext(s, 3, 300, 581);
    AdlerNext(s, 4, 405, 986);
    AdlerNext(s, 5, 517, 1503);
    AdlerNext(s, 6, 618, 2121);
    AdlerNext(s, 7, 718, 2839);
    AdlerNext(s, 8, 823, 3662);
    assert s[..9] == s;
  }

  lemma AdlerEmpty()
    ensures A([]) == 1 && B([]) == 0
  {
  }

  lemma AdlerNext(s: seq<byte>, k: nat, a: nat, b: nat)
    requires k < |s| && A(s[..k]) == a && B(s[..k]) == b
    ensures A(s[..k + 1]) == (a + s[k]) % MOD && B(s[..k + 1]) == (b + (a + s[k]) % MOD) % MOD
  {
    assert s[..k + 1][..k] == s[..k];
  }

  lemma NearbyResiduesDiffer(x: nat, y: nat)
    requires x != y && x - y < MOD && y - x < MOD
    ensures x % MOD != y % MOD
  {
    assert x == MOD * (x / MOD) + x % MOD && y == MOD * (y / MOD) + y % MOD;
  }
}

/**
 * The framing codec of muduo/net/protorpc/RpcCodec.cc: length, "RPC0", payload, checksum. Protobuf is a parameter: a
 * serialiser and a parser of message bodies.
 */
module Rpc {
  import opened Wire
  import opened Adler

  const HEADER_LEN: nat := 4
  const MIN_MESSAGE_LEN: nat := 2 * HEADER_LEN
  const MAX_MESSAGE_LEN: nat := 64 * 1024 * 1024
  const MAGIC: seq<byte> := [82, 80, 67, 48]  // "RPC0"

  datatype ErrorCode = InvalidLength | CheckSumError | UnknownMessageType | ParseError

  datatype Parsed<+M> = Message(m: M) | Error(code: ErrorCode)

  datatype Protobuf<!M> = Protobuf(serialize: M -> seq<byte>, parse: seq<byte> -> Option<M>)

  /** Parsing a serialised message gives it back. */
  ghost predicate Lossless<M(!new)>(p: Protobuf<M>) {
    forall m :: p.parse(p.serialize(m)) == Some(m)
  }

  function CheckSum(content: seq<byte>): (x: int)
    ensures Fits(4, x)
  {
    assert Pow256(4) == 0x1_0000_0000;
    Signed(4, Adler32(content))
  }

  lemma CheckSumInjective(s: seq<byte>, t: seq<byte>)
    requires CheckSum(s) == CheckSum(t)
    ensures Adler32(s) == Adler32(t)
  {
  }

  lemma LengthFits(n: nat)
    requires n < 0x8000_0000
    ensures Fits(4, n)
  {
    assert Pow256(4) == 0x1_0000_0000;
  }

  /** What follows the length field. */
  function Body(payload: seq<byte>): seq<byte> {
    MAGIC + payload + EncodeInt(4, CheckSum(MAGIC + payload))
  }

  /** Any bytes behind their length field. */
  function Framed(body: seq<byte>): seq<byte>
    requires |body| < 0x8000_0000
  {
    LengthFits(|body|);
    EncodeInt(4, |body|) + body
  }

  function Frame(payload: seq<byte>): seq<byte>
    requires |payload| + MIN_MESSAGE_LEN < 0x8000_0000
  {
    Framed(Body(payload))
  }

  /** RpcCodec::parse on the bytes behind the length field. */
  function Parse<M>(p: Protobuf<M>, body: seq<byte>): Parsed<M>
    requires MIN_MESSAGE_LEN <= |body|
  {
    var content, sum := body[..|body| - HEADER_LEN], body[|body| - HEADER_LEN..];
    if CheckSum(content) != DecodeInt(sum) then Error(CheckSumError)
    else if content[..HEADER_LEN] != MAGIC then Error(UnknownMessageType)
    else match p.parse(content[HEADER_LEN..])
      case Some(m) => Message(m)
      case None => Error(ParseError)
  }

  /** What one round of onMessage's loop does to the buffer. */
  datatype Round<+M> = Exit | Deliver(m: M, rest: seq<byte>) | Spin(code: ErrorCode)

  function LoopRound<M>(p: Protobuf<M>, buf: seq<byte>): (r: Round<M>)
    // a delivered frame consumes at least a length field and an empty message
    ensures r.Deliver? ==> |r.rest| + HEADER_LEN + MIN_MESSAGE_LEN <= |buf| && r.rest == buf[|buf| - |r.rest|..]
  {
    if |buf| < MIN_MESSAGE_LEN + HEADER_LEN then Exit
    else
      var len := DecodeInt(buf[..HEADER_LEN]);
      if len > MAX_MESSAGE_LEN || len < MIN_MESSAGE_LEN then Spin(InvalidLength)
      else if |buf| < len + HEADER_LEN then Exit
      else match Parse(p, buf[HEADER_LEN..HEADER_LEN + len])
        case Message(m) => Deliver(m, buf[HEADER_LEN + len..])
        case Error(code) => Spin(code)
  }

  datatype Status = Waiting | Stuck(code: ErrorCode)

  datatype Decoded<+M> = Decoded(msgs: seq<M>, rest: seq<byte>, status: Status)

  /** onMessage up to its exit, or up to the bad frame it can neither consume nor leave. */
  function Decode<M>(p: Protobuf<M>, buf: seq<byte>): Decoded<M>
    decreases |buf|
  {
    match LoopRound(p, buf)
    case Exit => Decoded([], buf, Waiting)
    case Deliver(m, rest) => Then([m], Decode(p, rest))
    case Spin(code) => Decoded([], buf, Stuck(code))
  }

  function Then<M>(msgs: seq<M>, d: Decoded<M>): Decoded<M> {
    Decoded(msgs + d.msgs, d.rest, d.status)
  }

  lemma ThenThen<M>(ms: seq<M>, ns: seq<M>, d: Decoded<M>)
    ensures Then(ms, Then(ns, d)) == Then(ms + ns, d)
    ensures Then([], d) == d
  {
    assert ms + (ns + d.msgs) == ms + ns + d.msgs;
    assert [] + d.msgs == d.msgs;
  }

  lemma {:induction false} DecodeStep<M>(p: Protobuf<M>, buf: seq<byte>)
    ensures |buf| < MIN_MESSAGE_LEN + HEADER_LEN ==> LoopRound(p, buf).Exit?
    ensures var round := LoopRound(p, buf);
            && (round.Exit? ==> Decode(p, buf) == Decoded([], buf, Waiting))
            && (round.Deliver? ==> Decode(p, buf) == Then([round.m], Decode(p, round.rest)))
            && (round.Spin? ==> Decode(p, buf) == Decoded([], buf, Stuck(round.code)))
  {
  }

  lemma DecodeEnds<M>(p: Protobuf<M>, buf: seq<byte>, done: seq<M>)
    requires !LoopRound(p, buf).Deliver?
    ensures var round := LoopRound(p, buf);
            Then(done, Decode(p, buf)) == Decoded(done, buf, if round.Exit? then Waiting else Stuck(round.code))
  {
    assert done + [] == done;
  }

  // ----- termination -----

  /** The loop leaves within `n` rounds; the default error callback does not touch the buffer. */
  predicate ExitsWithin<M>(p: Protobuf<M>, buf: seq<byte>, n: nat)
    decreases n
  {
    match LoopRound(p, buf)
    case Exit => true
    case Deliver(_, rest) => 0 < n && ExitsWithin(p, rest, n - 1)
    case Spin(_) => 0 < n && ExitsWithin(p, buf, n - 1)
  }

  lemma {:induction false} ExitOnlyIfWaiting<M>(p: Protobuf<M>, buf: seq<byte>, n: nat)
    requires ExitsWithin(p, buf, n)
    ensures Decode(p, buf).status.Waiting?
    decreases n
  {
    match LoopRound(p, buf)
    case Exit =>
    case Deliver(m, rest) => ExitOnlyIfWaiting(p, rest, n - 1);
    case Spin(_) => ExitOnlyIfWaiting(p, buf, n - 1);
  }

  lemma {:induction false} WaitingExits<M>(p: Protobuf<M>, buf: seq<byte>) returns (n: nat)
    requires Decode(p, buf).status.Waiting?
    ensures ExitsWithin(p, buf, n)
    decreases |buf|
  {
    n := 0;
    var round := LoopRound(p, buf);
    if round.Deliver? {
      n := WaitingExits(p, round.rest);
      n := n + 1;
    }
  }

  ghost predicate Exits<M>(p: Protobuf<M>, buf: seq<byte>) {
    exists n: nat :: ExitsWithin(p, buf, n)
  }

  predicate GoodBody<M>(p: Protobuf<M>, body: seq<byte>) {
    MIN_MESSAGE_LEN <= |body| <= MAX_MESSAGE_LEN && Parse(p, body).Message?
  }

  predicate GoodBodies<M>(p: Protobuf<M>, bodies: seq<seq<byte>>) {
    forall i :: 0 <= i < |bodies| ==> GoodBody(p, bodies[i])
  }

  function Frames<M>(p: Protobuf<M>, bodies: seq<seq<byte>>): seq<byte>
    requires GoodBodies(p, bodies)
  {
    if bodies == [] then [] else Framed(bodies[0]) + Frames(p, bodies[1..])
  }

  /** Too short for a frame, or shorter than its own acceptable length field says. */
  predicate Incomplete(tail: seq<byte>) {
    || |tail| < MIN_MESSAGE_LEN + HEADER_LEN
    || (var len := DecodeInt(tail[..HEADER_LEN]); MIN_MESSAGE_LEN <= len <= MAX_MESSAGE_LEN && |tail| < len + HEADER_LEN)
  }

  ghost predicate Split<M>(p: Protobuf<M>, buf: seq<byte>, bodies: seq<seq<byte>>, tail: seq<byte>) {
    GoodBodies(p, bodies) && Incomplete(tail) && buf == Frames(p, bodies) + tail
  }

  /** Good frames followed by an incomplete one. */
  ghost predicate GoodStream<M>(p: Protobuf<M>, buf: seq<byte>) {
    exists bodies, tail :: Split(p, buf, bodies, tail)
  }

  lemma FramedRound<M>(p: Protobuf<M>, body: seq<byte>, rest: seq<byte>)
    requires GoodBody(p, body)
    ensures LoopRound(p, Framed(body) + rest) == Deliver(Parse(p, body).m, rest)
  {
    hide EncodeInt, DecodeInt, CheckSum, Parse, Fits;
    LengthFits(|body|);
    DecodeEncodeInt(4, |body|);
    var s := Framed(body) + rest;
    assert s[..HEADER_LEN] == EncodeInt(4, |body|);
    assert s[HEADER_LEN..HEADER_LEN + |body|] == body && s[HEADER_LEN + |body|..] == rest;
  }

  /** What a round delivers is a good frame in front of the rest. */
  lemma RoundFramed<M>(p: Protobuf<M>, buf: seq<byte>) returns (body: seq<byte>)
    requires LoopRound(p, buf).Deliver?
    ensures GoodBody(p, body) && buf == Framed(body) + LoopRound(p, buf).rest
  {
    hide EncodeInt, DecodeInt, CheckSum, Parse, Fits;
    var len := DecodeInt(buf[..HEADER_LEN]);
    body := buf[HEADER_LEN..HEADER_LEN + len];
    EncodeDecodeInt(buf[..HEADER_LEN]);
    assert buf == buf[..HEADER_LEN] + body + buf[HEADER_LEN + len..];
  }

  lemma {:induction false} SplitWaits<M>(p: Protobuf<M>, buf: seq<byte>, bodies: seq<seq<byte>>, tail: seq<byte>)
    requires Split(p, buf, bodies, tail)
    ensures Decode(p, buf).status.Waiting?
    decreases |bodies|
  {
    hide Framed, DecodeInt, CheckSum, Parse;
    if bodies == [] {
      assert buf == tail;
    } else {
      var rest := Frames(p, bodies[1..]) + tail;
      assert buf == Framed(bodies[0]) + rest;
      FramedRound(p, bodies[0], rest);
      SplitWaits(p, rest, bodies[1..], tail);
    }
  }

  lemma {:induction false} WaitingSplits<M>(p: Protobuf<M>, buf: seq<byte>) returns (bodies: seq<seq<byte>>, tail: seq<byte>)
    requires Decode(p, buf).status.Waiting?
    ensures Split(p, buf, bodies, tail)
    decreases |buf|
  {
    hide Framed, DecodeInt, CheckSum, Parse;
    if LoopRound(p, buf).Exit? {
      bodies, tail := [], buf;
      assert buf == Frames(p, bodies) + tail;
    } else {
      var body := RoundFramed(p, buf);
      bodies, tail := WaitingSplits(p, LoopRound(p, buf).rest);
      bodies := [body] + bodies;
      assert Frames(p, bodies) == Framed(body) + Frames(p, bodies[1..]);
    }
  }

  lemma WaitingIffGood<M>(p: Protobuf<M>, buf: seq<byte>)
    ensures Decode(p, buf).status.Waiting? <==> GoodStream(p, buf)
  {
    if Decode(p, buf).status.Waiting? {
      var bodies, tail := WaitingSplits(p, buf);
    } else if GoodStream(p, buf) {
      var bodies, tail :| Split(p, buf, bodies, tail);
      SplitWaits(p, buf, bodies, tail);
    }
  }

  /** onMessage returns exactly when the buffered stream is good frames followed by an incomplete one. */
  lemma TerminatesIff<M>(p: Protobuf<M>, buf: seq<byte>)
    ensures Exits(p, buf) <==> GoodStream(p, buf)
  {
    WaitingIffGood(p, buf);
    if Decode(p, buf).status.Waiting? {
      var n := WaitingExits(p, buf);
      assert Exits(p, buf);
    } else if Exits(p, buf) {
      var n: nat :| ExitsWithin(p, buf, n);
      ExitOnlyIfWaiting(p, buf, n);
    }
  }

  // ----- round trip -----

  lemma FrameShape(payload: seq<byte>, tail: seq<byte>)
    requires |payload| + MIN_MESSAGE_LEN < 0x8000_0000
    ensures var s, len := Frame(payload) + tail, |payload| + MIN_MESSAGE_LEN;
            && |Frame(payload)| == HEADER_LEN + len && |Body(payload)| == len
            && DecodeInt(s[..HEADER_LEN]) == len
            && s[HEADER_LEN..HEADER_LEN + len] == Body(payload) && s[HEADER_LEN + len..] == tail
  {
    var len := |payload| + MIN_MESSAGE_LEN;
    LengthFits(len);
    DecodeEncodeInt(4, len);
    var s := Frame(payload) + tail;
    assert s[..HEADER_LEN] == EncodeInt(4, len);
  }

  lemma BodyParses<M>(p: Protobuf<M>, payload: seq<byte>)
    ensures Parse(p, Body(payload)) ==
            match p.parse(payload)
            case Some(m) => Message(m)
            case None => Error(ParseError)
  {
    var body, content := Body(payload), MAGIC + payload;
    assert body[..|body| - HEADER_LEN] == content && body[|body| - HEADER_LEN..] == EncodeInt(4, CheckSum(content));
    DecodeEncodeInt(4, CheckSum(content));
    assert content[..HEADER_LEN] == MAGIC && content[HEADER_LEN..] == payload;
  }

  /** A frame is delivered exactly when its payload fits the receiver's limit; the sender does not check it. */
  lemma FrameDecodesIff<M(!new)>(p: Protobuf<M>, m: M, tail: seq<byte>)
    requires Lossless(p) && |p.serialize(m)| + MIN_MESSAGE_LEN < 0x8000_0000
    ensures LoopRound(p, Frame(p.serialize(m)) + tail) ==
            if |p.serialize(m)| <= MAX_MESSAGE_LEN - MIN_MESSAGE_LEN then Deliver(m, tail) else Spin(InvalidLength)
  {
    FrameShape(p.serialize(m), tail);
    BodyParses(p, p.serialize(m));
  }

  predicate Sendable<M>(p: Protobuf<M>, m: M) {
    |p.serialize(m)| <= MAX_MESSAGE_LEN - MIN_MESSAGE_LEN
  }

  function Encode<M>(p: Protobuf<M>, m: M): seq<byte>
    requires Sendable(p, m)
  {
    Frame(p.serialize(m))
  }

  function EncodeAll<M>(p: Protobuf<M>, ms: seq<M>): seq<byte>
    requires forall m :: m in ms ==> Sendable(p, m)
  {
    if ms == [] then [] else Encode(p, ms[0]) + EncodeAll(p, ms[1..])
  }

  /** Anything short of a whole frame is waited on. */
  lemma PartialFrameWaits<M>(p: Protobuf<M>, m: M, part: seq<byte>)
    requires Sendable(p, m) && part < Encode(p, m)
    ensures LoopRound(p, part).Exit?
  {
    FrameShape(p.serialize(m), []);
    if HEADER_LEN <= |part| {
      var frame := Encode(p, m);
      assert frame + [] == frame;
      assert part[..HEADER_LEN] == frame[..HEADER_LEN];
    }
  }

  /** `d` has the first `k` messages, and keeps of the next one a proper part. */
  ghost predicate CutAt<M>(p: Protobuf<M>, ms: seq<M>, got: seq<byte>, d: Decoded<M>, k: nat)
    requires forall m :: m in ms ==> Sendable(p, m)
  {
    && k <= |ms| && d.msgs == ms[..k] && d.status.Waiting?
    && got == EncodeAll(p, ms[..k]) + d.rest
    && (if k == |ms| then d.rest == [] else d.rest < Encode(p, ms[k]))
  }

  lemma CutNext<M>(p: Protobuf<M>, ms: seq<M>, rest: seq<byte>, d: Decoded<M>, j: nat)
    requires ms != [] && (forall m :: m in ms ==> Sendable(p, m)) && CutAt(p, ms[1..], rest, d, j)
    ensures CutAt(p, ms, Encode(p, ms[0]) + rest, Then([ms[0]], d), j + 1)
  {
    hide Encode, Sendable;
    var k := j + 1;
    assert ms[..k] == [ms[0]] + ms[1..][..j];
    assert ms[..k][1..] == ms[1..][..j];
    assert EncodeAll(p, ms[..k]) == Encode(p, ms[0]) + EncodeAll(p, ms[1..][..j]);
  }

  /** However much of the stream has arrived: the whole messages in it are delivered and the cut one is kept. */
  lemma {:induction false} PrefixDecodes<M(!new)>(p: Protobuf<M>, ms: seq<M>, got: seq<byte>) returns (k: nat)
    requires Lossless(p) && (forall m :: m in ms ==> Sendable(p, m)) && got <= EncodeAll(p, ms)
    ensures CutAt(p, ms, got, Decode(p, got), k)
    decreases |ms|
  {
    k := 0;
    if ms != [] {
      var frame, tail := Encode(p, ms[0]), EncodeAll(p, ms[1..]);
      assert EncodeAll(p, ms) == frame + tail;
      assert ms[0] in ms;
      if |got| < |frame| {
        PartialPrefix(frame, tail, got);
        PartialFrameWaits(p, ms[0], got);
        assert got == EncodeAll(p, ms[..0]) + got;
      } else {
        var rest := PrefixRest(frame, tail, got);
        FrameDecodesIff(p, ms[0], rest);
        hide LoopRound, Encode, Sendable;
        k := PrefixDecodes(p, ms[1..], rest);
        CutNext(p, ms, rest, Decode(p, rest), k);
        k := k + 1;
      }
    }
  }

  lemma PartialPrefix(frame: seq<byte>, tail: seq<byte>, got: seq<byte>)
    requires got <= frame + tail && |got| < |frame|
    ensures got < frame
  {
    assert got == (frame + tail)[..|got|] == frame[..|got|];
  }

  lemma PrefixRest(frame: seq<byte>, tail: seq<byte>, got: seq<byte>) returns (rest: seq<byte>)
    requires got <= frame + tail && |frame| <= |got|
    ensures got == frame + rest && rest <= tail
  {
    rest := got[|frame|..];
    assert got == (frame + tail)[..|got|];
    assert rest == tail[..|rest|];
  }

  // ----- chunking -----

  lemma {:induction false} RoundExtends<M>(p: Protobuf<M>, a: seq<byte>, b: seq<byte>)
    requires !LoopRound(p, a).Exit?
    ensures LoopRound(p, a + b) ==
            match LoopRound(p, a)
            case Deliver(m, rest) => Deliver(m, rest + b)
            case Spin(code) => Spin(code)
  {
    var s := a + b;
    assert s[..HEADER_LEN] == a[..HEADER_LEN];
    var len := DecodeInt(a[..HEADER_LEN]);
    if MIN_MESSAGE_LEN <= len <= MAX_MESSAGE_LEN {
      assert s[HEADER_LEN..HEADER_LEN + len] == a[HEADER_LEN..HEADER_LEN + len];
      assert s[HEADER_LEN + len..] == a[HEADER_LEN + len..] + b;
    }
  }

  /** Decoding what was left together with the next bytes is decoding the whole. */
  lemma {:induction false} DecodeSplit<M>(p: Protobuf<M>, a: seq<byte>, b: seq<byte>)
    ensures var d := Decode(p, a);
            Decode(p, a + b) == if d.status.Waiting? then Then(d.msgs, Decode(p, d.rest + b)) else d.(rest := d.rest + b)
    decreases |a|
  {
    hide LoopRound, Then;
    var round := LoopRound(p, a);
    if round.Exit? {
      ThenThen([], [], Decode(p, a + b));
    } else {
      RoundExtends(p, a, b);
      if round.Deliver? {
        DecodeSplit(p, round.rest, b);
        var d := Decode(p, round.rest);
        ThenFields([round.m], d);
        if d.status.Waiting? {
          ThenThen([round.m], d.msgs, Decode(p, d.rest + b));
        } else {
          ThenRest([round.m], d, d.rest + b);
        }
      }
    }
  }

  lemma ThenFields<M>(ms: seq<M>, d: Decoded<M>)
    ensures var t := Then(ms, d); t.msgs == ms + d.msgs && t.rest == d.rest && t.status == d.status
  {
  }

  lemma ThenRest<M>(ms: seq<M>, d: Decoded<M>, rest: seq<byte>)
    ensures Then(ms, d.(rest := rest)) == Then(ms, d).(rest := rest)
  {
  }

  /** One onMessage call per read; a stuck call never returns, and what follows just piles up. */
  function Feed<M>(p: Protobuf<M>, pending: seq<byte>, chunks: seq<seq<byte>>): Decoded<M>
    decreases |chunks|
  {
    if chunks == [] then Decoded([], pending, Waiting)
    else
      var d := Decode(p, pending + chunks[0]);
      if d.status.Stuck? then d.(rest := d.rest + Concat(chunks[1..]))
      else Then(d.msgs, Feed(p, d.rest, chunks[1..]))
  }

  lemma {:induction false} DecodeIdle<M>(p: Protobuf<M>, buf: seq<byte>)
    requires Decode(p, buf).status.Waiting?
    ensures var d := Decode(p, buf); Decode(p, d.rest) == Decoded([], d.rest, Waiting)
    decreases |buf|
  {
    var round := LoopRound(p, buf);
    if round.Deliver? {
      DecodeIdle(p, round.rest);
    }
  }

  lemma {:induction false} FeedIsDecode<M>(p: Protobuf<M>, pending: seq<byte>, chunks: seq<seq<byte>>)
    requires Decode(p, pending) == Decoded([], pending, Waiting)
    ensures Feed(p, pending, chunks) == Decode(p, pending + Concat(chunks))
    decreases |chunks|
  {
    if chunks == [] {
      assert pending + Concat(chunks) == pending;
    } else {
      var head, tail := pending + chunks[0], Concat(chunks[1..]);
      assert pending + Concat(chunks) == head + tail;
      DecodeSplit(p, head, tail);
      var d := Decode(p, head);
      if d.status.Waiting? {
        DecodeIdle(p, head);
        FeedIsDecode(p, d.rest, chunks[1..]);
      }
    }
  }

  /**
   * For every list of messages and every chunking of any prefix of their frames: the reads deliver exactly the
   * messages whose frames are complete, in order, and keep exactly the incomplete tail.
   */
  lemma StreamRoundTrip<M(!new)>(p: Protobuf<M>, ms: seq<M>, chunks: seq<seq<byte>>) returns (k: nat)
    requires Lossless(p) && (forall m :: m in ms ==> Sendable(p, m)) && Concat(chunks) <= EncodeAll(p, ms)
    ensures CutAt(p, ms, Concat(chunks), Feed(p, [], chunks), k)
  {
    assert [] + Concat(chunks) == Concat(chunks);
    FeedIsDecode(p, [], chunks);
    k := PrefixDecodes(p, ms, Concat(chunks));
  }

  /** Reading all of it gives all of it. */
  lemma WholeStreamRoundTrip<M(!new)>(p: Protobuf<M>, ms: seq<M>, chunks: seq<seq<byte>>)
    requires Lossless(p) && (forall m :: m in ms ==> Sendable(p, m)) && Concat(chunks) == EncodeAll(p, ms)
    ensures Feed(p, [], chunks) == Decoded(ms, [], Waiting)
  {
    var k := StreamRoundTrip(p, ms, chunks);
    if k < |ms| {
      EncodeAllSplit(p, ms, k);
    }
    assert k == |ms| ==> ms[..k] == ms;
  }

  lemma {:induction false} EncodeAllSplit<M>(p: Protobuf<M>, ms: seq<M>, k: nat)
    requires (forall m :: m in ms ==> Sendable(p, m)) && k < |ms|
    ensures ms[k] in ms && |EncodeAll(p, ms[..k])| + |Encode(p, ms[k])| <= |EncodeAll(p, ms)|
  {
    if k != 0 {
      EncodeAllSplit(p, ms[1..], k - 1);
      assert ms[..k][1..] == ms[1..][..k - 1];
    }
  }

  // ----- corruption -----

  /** A body with exactly one byte changed, wherever it is, is rejected by the checksum. */
  lemma OneByteCorruptionDetected<M>(p: Protobuf<M>, payload: seq<byte>, i: nat, b: byte)
    requires i < |Body(payload)| && b != Body(payload)[i]
    ensures Parse(p, Body(payload)[i := b]) == Error(CheckSumError)
  {
    var content := MAGIC + payload;
    var good, bad := Body(payload), Body(payload)[i := b];
    var n := |content|;
    DecodeEncodeInt(4, CheckSum(content));
    assert good[n..] == EncodeInt(4, CheckSum(content));
    if i < n {
      assert bad[..n] == content[i := b] && bad[n..] == good[n..];
      OneByteChangesAdler32(content, i, b);
      if CheckSum(content[i := b]) == CheckSum(content) {
        CheckSumInjective(content[i := b], content);
      }
    } else {
      assert bad[..n] == content && bad[n..][i - n] != good[n..][i - n];
      if DecodeInt(bad[n..]) == DecodeInt(good[n..]) {
        DecodeIntInjective(bad[n..], good[n..]);
      }
    }
  }

  /** So a frame with one changed byte in its body, whatever follows it, keeps onMessage in its loop for ever. */
  lemma CorruptFrameNeverExits<M>(p: Protobuf<M>, payload: seq<byte>, i: nat, b: byte, rest: seq<byte>)
    requires |payload| <= MAX_MESSAGE_LEN - MIN_MESSAGE_LEN
    requires i < |Body(payload)| && b != Body(payload)[i]
    ensures !Exits(p, Framed(Body(payload)[i := b]) + rest)
  {
    OneByteCorruptionDetected(p, payload, i, b);
    var body := Body(payload)[i := b];
    var s := Framed(body) + rest;
    hide EncodeInt, DecodeInt, CheckSum, Parse, Fits, Body;
    LengthFits(|body|);
    DecodeEncodeInt(4, |body|);
    assert s[..HEADER_LEN] == EncodeInt(4, |body|) && s[HEADER_LEN..HEADER_LEN + |body|] == body;
    assert LoopRound(p, s) == Spin(CheckSumError);
    if Exits(p, s) {
      var n: nat :| ExitsWithin(p, s, n);
      ExitOnlyIfWaiting(p, s, n);
    }
  }

  // ----- the bytes of a frame -----

  /** Length, "RPC0", payload and checksum, both integers most significant byte first. */
  lemma FrameLayout(payload: seq<byte>)
    requires |payload| + MIN_MESSAGE_LEN < 0x8000_0000
    ensures var frame, n := Frame(payload), |payload|;
            && |frame| == n + 12
            && frame[0] == (n + 8) / 0x100_0000 && frame[1] == (n + 8) / 0x1_0000 % 256
            && frame[2] == (n + 8) / 0x100 % 256 && frame[3] == (n + 8) % 256
            && frame[4..8] == [82, 80, 67, 48] && frame[8..n + 8] == payload
            && frame[n + 8..] == ToBigEndian(4, Adler32([82, 80, 67, 48] + payload))
  {
    var n := |payload|;
    LengthFits(n + 8);
    FourBytes(n + 8);
    var frame, content := Frame(payload), MAGIC + payload;
    ChecksumBytes(content);
    var len, sum := EncodeInt(4, n + 8), EncodeInt(4, CheckSum(content));
    assert frame == len + (MAGIC + payload + sum);
    assert len == ToBigEndian(4, n + 8);
    assert frame[..4] == len && frame[4..8] == MAGIC && frame[8..n + 8] == payload && frame[n + 8..] == sum;
  }

  lemma FourBytes(u: nat)
    requires u < 0x8000_0000
    ensures ToBigEndian(4, u) == [u / 0x100_0000, u / 0x1_0000 % 256, u / 0x100 % 256, u % 256]
  {
    BytesByPower(4, u);
    assert Pow256(0) == 1 && Pow256(1) == 256 && Pow256(2) == 0x1_0000 && Pow256(3) == 0x100_0000;
    var s := ToBigEndian(4, u);
    assert s == [s[0], s[1], s[2], s[3]];
  }

  /** The checksum field is the ADLER32 word itself, whatever sign its int32 has. */
  lemma ChecksumBytes(content: seq<byte>)
    ensures EncodeInt(4, CheckSum(content)) == ToBigEndian(4, Adler32(content))
  {
    assert Pow256(4) == 0x1_0000_0000;
  }

  /** A body whose checksum is right is judged by its first four bytes, and then by the message parser. */
  lemma CheckedBodyParses<M>(p: Protobuf<M>, content: seq<byte>)
    requires HEADER_LEN <= |content|
    ensures var parsed := Parse(p, content + EncodeInt(4, CheckSum(content)));
            && (content[..HEADER_LEN] != [82, 80, 67, 48] ==> parsed == Error(UnknownMessageType))
            && (content[..HEADER_LEN] == [82, 80, 67, 48] && p.parse(content[HEADER_LEN..]).None? ==> parsed == Error(ParseError))
            && (content[..HEADER_LEN] == [82, 80, 67, 48] && p.parse(content[HEADER_LEN..]).Some? ==>
                 parsed == Message(p.parse(content[HEADER_LEN..]).value))
  {
    hide EncodeInt, DecodeInt, CheckSum;
    DecodeEncodeInt(4, CheckSum(content));
    var body := content + EncodeInt(4, CheckSum(content));
    assert body[..|body| - HEADER_LEN] == content && body[|body| - HEADER_LEN..] == EncodeInt(4, CheckSum(content));
  }

  /** And a body is rejected by its checksum exactly when the last four bytes are not the ADLER32 of the others. */
  lemma CheckSumErrorIff<M>(p: Protobuf<M>, body: seq<byte>)
    requires MIN_MESSAGE_LEN <= |body|
    ensures var n := |body| - HEADER_LEN;
            Parse(p, body) == Error(CheckSumError) <==> body[n..] != ToBigEndian(4, Adler32(body[..n]))
  {
    var n := |body| - HEADER_LEN;
    var content := body[..n];
    ChecksumBytes(content);
    DecodeEncodeInt(4, CheckSum(content));
    if DecodeInt(body[n..]) == CheckSum(content) {
      DecodeIntInjective(body[n..], EncodeInt(4, CheckSum(content)));
    }
  }

  /** Lengths outside 8 to 64 MiB are refused as soon as twelve bytes are there. */
  lemma LengthRefusedIff<M>(p: Protobuf<M>, buf: seq<byte>)
    requires 12 <= |buf|
    ensures var len := DecodeInt(buf[..4]);
            LoopRound(p, buf) == Spin(InvalidLength) <==> len < 8 || 64 * 1024 * 1024 < len
  {
    hide DecodeInt, CheckSum;
  }
}
