/** RpcCodec::send and RpcCodec::onMessage over real buffers. */
module RpcObjects {
  import opened Wire
  import opened Buffers
  import opened Rpc

  /** send: magic, payload and checksum are appended, and the length goes into the cheap prepend space. */
  method Send<M>(p: Protobuf<M>, message: M) returns (buf: Buffer)
    requires |p.serialize(message)| + MIN_MESSAGE_LEN < 0x8000_0000
    ensures fresh(buf) && fresh(buf.data) && buf.Valid()
    ensures buf.Contents() == Frame(p.serialize(message))
  {
    hide EncodeInt, CheckSum, Fits;
    buf := new Buffer();
    buf.Append(MAGIC);
    assert buf.Contents() == MAGIC;
    var payload := p.serialize(message);
    buf.EnsureWritableBytes(|payload| + HEADER_LEN);
    buf.Append(payload);
    var content := buf.Peek();
    assert content == MAGIC + payload;
    buf.AppendInt32(CheckSum(content));
    assert buf.Contents() == Body(payload);
    var len := buf.ReadableBytes();
    LengthFits(len);
    buf.PrependInt32(len);
  }

  /** The body of the loop: `Exit` is its break, and an error leaves the buffer as it is. */
  method OneRound<M>(p: Protobuf<M>, buf: Buffer) returns (round: Round<M>)
    requires buf.Valid() && buf.ReadableBytes() >= MIN_MESSAGE_LEN + HEADER_LEN
    modifies buf
    ensures buf.Valid() && buf.data == old(buf.data)
    ensures round == LoopRound(p, old(buf.Contents()))
    ensures buf.Contents() == if round.Deliver? then round.rest else old(buf.Contents())
  {
    hide CheckSum, DecodeInt, Parse;
    var len := buf.PeekInt32();
    var bytes := buf.Peek();
    if len > MAX_MESSAGE_LEN || len < MIN_MESSAGE_LEN {
      round := Spin(InvalidLength);
    } else if buf.ReadableBytes() >= len + HEADER_LEN {
      match Parse(p, bytes[HEADER_LEN..HEADER_LEN + len]) {
        case Message(m) =>
          buf.Retrieve(HEADER_LEN + len);
          round := Deliver(m, bytes[HEADER_LEN + len..]);
        case Error(code) =>
          round := Spin(code);
      }
    } else {
      round := Exit;
    }
  }

  /** Every report so far is about the frame in front of the buffer. */
  predicate Repeats<M>(p: Protobuf<M>, buf: seq<byte>, reports: seq<ErrorCode>) {
    forall i :: 0 <= i < |reports| ==> LoopRound(p, buf) == Spin(reports[i])
  }

  /**
   * onMessage, watched until it returns or has called the error callback `patience + 1` times. Every complete good
   * frame is consumed and handed over, in order. If it did not return, the bad frame is still in front of the buffer and
   * each of those calls reported it: it can go on like that for any number of rounds.
   */
  method OnMessage<M>(p: Protobuf<M>, buf: Buffer, patience: nat) returns (delivered: seq<M>, reports: seq<ErrorCode>)
    requires buf.Valid()
    modifies buf
    ensures buf.Valid() && buf.data == old(buf.data)
    ensures var d := Decode(p, old(buf.Contents()));
            && delivered == d.msgs && buf.Contents() == d.rest
            && |reports| == (if d.status.Waiting? then 0 else patience + 1)
            && forall i :: 0 <= i < |reports| ==> d.status == Stuck(reports[i])
    ensures reports == [] <==> GoodStream(p, old(buf.Contents()))
  {
    hide LoopRound, Then, GoodStream, Decode;
    WaitingIffGood(p, buf.Contents());
    delivered, reports := [], [];
    ghost var all := Decode(p, buf.Contents());
    ThenThen([], [], all);
    while buf.ReadableBytes() >= MIN_MESSAGE_LEN + HEADER_LEN && |reports| <= patience
      invariant buf.Valid() && buf.data == old(buf.data)
      invariant all == Then(delivered, Decode(p, buf.Contents())) && |reports| <= patience + 1
      invariant Repeats(p, buf.Contents(), reports)
      decreases buf.ReadableBytes(), patience + 1 - |reports|
    {
      ghost var now := buf.Contents();
      DecodeStep(p, now);
      var round := OneRound(p, buf);
      match round {
        case Exit => break;
        case Deliver(m, rest) =>
          ThenThen(delivered, [m], Decode(p, rest));
          delivered := delivered + [m];
        case Spin(code) =>
          reports := reports + [code];
      }
    }
    DecodeStep(p, buf.Contents());
    assert reports != [] ==> LoopRound(p, buf.Contents()) == Spin(reports[0]);
    DecodeEnds(p, buf.Contents(), delivered);
  }
}
