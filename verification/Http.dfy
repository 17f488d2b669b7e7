/**
 * The incremental HTTP request parser of muduo/net/http/HttpServer.cc as a function of the parse context and the
 * buffered bytes, with its two laws: how the stream is cut into reads does not matter, and rendering is inverted.
 */
module Http {
  import opened Wire

  datatype Verb = Invalid | Get | Post | Head | Put | Delete
  datatype Version = Unknown | Http10 | Http11
  datatype Request = Request(verb: Verb, version: Version, path: seq<byte>, headers: map<seq<byte>, seq<byte>>)
  datatype ParseState = ExpectRequestLine | ExpectHeaders | ExpectBody | GotAll
  datatype Context = Context(state: ParseState, request: Request)

  /** parseRequest's verdict, the context it leaves and the bytes it leaves in the buffer. */
  datatype Outcome = Outcome(ok: bool, ctx: Context, rest: seq<byte>)

  const SPACE: byte := 32
  const COLON: byte := 58
  const CRLF: seq<byte> := [CR, LF]
  const GET: seq<byte> := [71, 69, 84]
  const POST: seq<byte> := [80, 79, 83, 84]
  const HEAD: seq<byte> := [72, 69, 65, 68]
  const PUT: seq<byte> := [80, 85, 84]
  const DELETE: seq<byte> := [68, 69, 76, 69, 84, 69]
  const HTTP1: seq<byte> := [72, 84, 84, 80, 47, 49, 46]  // "HTTP/1."
  const ZERO: byte := 48
  const ONE: byte := 49

  const NO_REQUEST := Request(Invalid, Unknown, [], map[])
  const FRESH := Context(ExpectRequestLine, NO_REQUEST)

  /** std::find: the first index of `b`, or the length. */
  function Find(s: seq<byte>, b: byte): (r: nat)
    ensures r <= |s|
    ensures r < |s| ==> s[r] == b
    ensures forall j :: 0 <= j < r ==> s[j] != b
  {
    if s == [] then 0 else if s[0] == b then 0 else 1 + Find(s[1..], b)
  }

  lemma FindUnique(s: seq<byte>, b: byte, r: nat)
    requires r < |s| && s[r] == b && forall j :: 0 <= j < r ==> s[j] != b
    ensures Find(s, b) == r
  {
  }

  /** isspace in the C locale. */
  predicate IsSpace(b: byte) {
    b == SPACE || 9 <= b <= 13
  }

  function TrimLeft(s: seq<byte>): seq<byte> {
    if s != [] && IsSpace(s[0]) then TrimLeft(s[1..]) else s
  }

  function TrimRight(s: seq<byte>): seq<byte> {
    if s != [] && IsSpace(s[|s| - 1]) then TrimRight(s[..|s| - 1]) else s
  }

  function VerbOf(s: seq<byte>): Verb {
    if s == GET then Get
    else if s == POST then Post
    else if s == HEAD then Head
    else if s == PUT then Put
    else if s == DELETE then Delete
    else Invalid
  }

  /** processRequestLine; a failure may still have set the method and the path. */
  function ProcessRequestLine(r: Request, line: seq<byte>): (Request, bool) {
    var sp := Find(line, SPACE);
    if sp == |line| then (r, false)
    else
      var r1 := r.(verb := VerbOf(line[..sp]));
      var tail := line[sp + 1..];
      var sp2 := Find(tail, SPACE);
      if r1.verb.Invalid? || sp2 == |tail| then (r1, false)
      else
        var r2 := r1.(path := tail[..sp2]);
        var proto := tail[sp2 + 1..];
        if |proto| == 8 && proto[..7] == HTTP1 && proto[7] == ONE then (r2.(version := Http11), true)
        else if |proto| == 8 && proto[..7] == HTTP1 && proto[7] == ZERO then (r2.(version := Http10), true)
        else (r2, false)
  }

  function AddHeader(r: Request, line: seq<byte>, colon: nat): Request
    requires colon < |line|
  {
    r.(headers := r.headers[line[..colon] := TrimRight(TrimLeft(line[colon + 1..]))])
  }

  /** The states parseRequest can be entered in: in any other its loop has no branch to take and never ends. */
  predicate Enterable(ctx: Context) {
    ctx.state.ExpectRequestLine? || ctx.state.ExpectHeaders?
  }

  /** The loop of parseRequest. */
  function Parse(ctx: Context, buf: seq<byte>): (o: Outcome)
    requires Enterable(ctx)
    ensures o.ctx.state.GotAll? || Enterable(o.ctx)
    ensures |o.rest| <= |buf|
    decreases |buf|
  {
    var crlf := FirstCRLF(buf);
    if crlf == |buf| then Outcome(true, ctx, buf)
    else
      var line, rest := buf[..crlf], buf[crlf + 2..];
      if ctx.state.ExpectRequestLine? then
        var (r, ok) := ProcessRequestLine(ctx.request, line);
        if ok then Parse(Context(ExpectHeaders, r), rest) else Outcome(false, ctx.(request := r), buf)
      else
        var colon := Find(line, COLON);
        if colon < |line| then Parse(ctx.(request := AddHeader(ctx.request, line, colon)), rest)
        else Outcome(true, ctx.(state := GotAll), rest)
  }

  predicate Final(o: Outcome) {
    !o.ok || o.ctx.state.GotAll?
  }

  // ----- chunking independence -----

  /** Parsing `a` and then `b` behind what was left is parsing `a + b`. */
  lemma {:induction false} ParseSplit(ctx: Context, a: seq<byte>, b: seq<byte>)
    requires Enterable(ctx)
    ensures var o := Parse(ctx, a);
            Parse(ctx, a + b) == if Final(o) then o.(rest := o.rest + b) else Parse(o.ctx, o.rest + b)
    decreases |a|
  {
    hide ProcessRequestLine, AddHeader, Find, FirstCRLF;
    var crlf := FirstCRLF(a);
    if crlf < |a| {
      FirstCRLFExtends(a, b);
      var line, rest := a[..crlf], a[crlf + 2..];
      assert (a + b)[..crlf] == line && (a + b)[crlf + 2..] == rest + b;
      if ctx.state.ExpectRequestLine? {
        var (r, ok) := ProcessRequestLine(ctx.request, line);
        if ok {
          ParseSplit(Context(ExpectHeaders, r), rest, b);
        }
      } else {
        var colon := Find(line, COLON);
        if colon < |line| {
          ParseSplit(ctx.(request := AddHeader(ctx.request, line, colon)), rest, b);
        }
      }
    }
  }

  /** One parseRequest call per read, until the first error or complete request; the rest of the stream is left over. */
  function Feed(ctx: Context, pending: seq<byte>, chunks: seq<seq<byte>>): Outcome
    requires Enterable(ctx)
    decreases |chunks|
  {
    if chunks == [] then Outcome(true, ctx, pending)
    else
      var o := Parse(ctx, pending + chunks[0]);
      if Final(o) then o.(rest := o.rest + Concat(chunks[1..])) else Feed(o.ctx, o.rest, chunks[1..])
  }

  /** What parseRequest leaves after an incomplete read, it leaves again. */
  lemma {:induction false} ParseIdle(ctx: Context, buf: seq<byte>)
    requires Enterable(ctx) && !Final(Parse(ctx, buf))
    ensures var o := Parse(ctx, buf); Parse(o.ctx, o.rest) == o
    decreases |buf|
  {
    var crlf := FirstCRLF(buf);
    if crlf < |buf| {
      var line, rest := buf[..crlf], buf[crlf + 2..];
      if ctx.state.ExpectRequestLine? {
        ParseIdle(Context(ExpectHeaders, ProcessRequestLine(ctx.request, line).0), rest);
      } else {
        ParseIdle(ctx.(request := AddHeader(ctx.request, line, Find(line, COLON))), rest);
      }
    }
  }

  lemma {:induction false} FeedIsParse(ctx: Context, pending: seq<byte>, chunks: seq<seq<byte>>)
    requires Enterable(ctx) && Parse(ctx, pending) == Outcome(true, ctx, pending)
    ensures Feed(ctx, pending, chunks) == Parse(ctx, pending + Concat(chunks))
    decreases |chunks|
  {
    if chunks == [] {
      assert pending + Concat(chunks) == pending;
    } else {
      var head, tail := pending + chunks[0], Concat(chunks[1..]);
      assert pending + Concat(chunks) == head + tail;
      ParseSplit(ctx, head, tail);
      var o := Parse(ctx, head);
      if !Final(o) {
        ParseIdle(ctx, head);
        FeedIsParse(o.ctx, o.rest, chunks[1..]);
      }
    }
  }

  /**
   * For every stream and every way of cutting it into reads: same verdict, same context and request, same number of
   * bytes consumed as one read of the whole.
   */
  lemma ChunkingIndependent(ctx: Context, chunks: seq<seq<byte>>)
    requires Enterable(ctx)
    ensures Feed(ctx, [], chunks) == Parse(ctx, Concat(chunks))
  {
    assert [] + Concat(chunks) == Concat(chunks);
    FeedIsParse(ctx, [], chunks);
  }

  /** A header section ends at the first line without a colon, empty or not. */
  lemma HeadersEndIffNoColon(ctx: Context, line: seq<byte>, tail: seq<byte>)
    requires ctx.state.ExpectHeaders? && FirstCRLF(line) == |line|
    ensures Parse(ctx, line + CRLF + tail) == Outcome(true, ctx.(state := GotAll), tail) <==> COLON !in line
  {
    LineSplit(line, tail);
    var colon := Find(line, COLON);
    if colon < |line| {
      assert COLON in line;
      var ctx' := ctx.(request := AddHeader(ctx.request, line, colon));
      ParseConsumes(ctx', tail);
    }
  }

  lemma ParseConsumes(ctx: Context, buf: seq<byte>)
    requires Enterable(ctx)
    ensures var o := Parse(ctx, buf); o.rest == buf ==> !o.ctx.state.GotAll?
    decreases |buf|
  {
  }

  /** What the assertion in setMethod needs: no method is set while the request line is still expected. */
  predicate Ready(ctx: Context) {
    Enterable(ctx) && (ctx.state.ExpectRequestLine? ==> ctx.request.verb.Invalid?)
  }

  /** HttpContext::reset: the swap of the two requests leaves the version behind. */
  function Reset(ctx: Context): Context {
    Context(ExpectRequestLine, NO_REQUEST.(version := ctx.request.version))
  }

  /** onMessage: one parse, and a reset when a request is complete, so that parseRequest can be entered again. */
  function OnMessage(ctx: Context, buf: seq<byte>): (o: Outcome)
    requires Enterable(ctx)
    ensures Enterable(o.ctx)
  {
    var o := Parse(ctx, buf);
    if o.ctx.state.GotAll? then o.(ctx := Reset(o.ctx)) else o
  }

  /** What follows the method lacks a second space, or names a protocol other than HTTP/1.0 and HTTP/1.1. */
  predicate BadTarget(tail: seq<byte>) {
    var sp := Find(tail, SPACE);
    sp == |tail| || (tail[sp + 1..] != Protocol(Http11) && tail[sp + 1..] != Protocol(Http10))
  }

  /** A request line that is refused only after its method was stored. */
  predicate HalfGood(line: seq<byte>) {
    var sp := Find(line, SPACE);
    sp < |line| && !VerbOf(line[..sp]).Invalid? && BadTarget(line[sp + 1..])
  }

  lemma RequestLineVerdict(r: Request, line: seq<byte>)
    requires r.verb.Invalid?
    ensures var (q, ok) := ProcessRequestLine(r, line);
            (!ok && !q.verb.Invalid?) <==> HalfGood(line)
  {
    hide VerbOf, Find, Protocol;
    var sp := Find(line, SPACE);
    if sp < |line| {
      var tail := line[sp + 1..];
      var sp2 := Find(tail, SPACE);
      if sp2 < |tail| {
        ProtocolBytes(tail[sp2 + 1..]);
      }
    }
  }

  lemma ProtocolBytes(proto: seq<byte>)
    ensures proto == Protocol(Http11) <==> |proto| == 8 && proto[..7] == HTTP1 && proto[7] == ONE
    ensures proto == Protocol(Http10) <==> |proto| == 8 && proto[..7] == HTTP1 && proto[7] == ZERO
  {
    if |proto| == 8 {
      assert proto == proto[..7] + [proto[7]];
    }
  }

  /**
   * The connection can take the next read unless this one completes a half-good request line: then the method stays set
   * and the assertion in setMethod fails on the next read.
   */
  lemma OnMessageReadyIff(ctx: Context, buf: seq<byte>)
    requires Ready(ctx)
    ensures !Ready(OnMessage(ctx, buf).ctx) <==>
            ctx.state.ExpectRequestLine? && FirstCRLF(buf) < |buf| && HalfGood(buf[..FirstCRLF(buf)])
  {
    hide ProcessRequestLine, HalfGood;
    if ctx.state.ExpectHeaders? {
      HeadersNeverFail(ctx, buf);
    } else if FirstCRLF(buf) < |buf| {
      var line, rest := buf[..FirstCRLF(buf)], buf[FirstCRLF(buf) + 2..];
      RequestLineVerdict(ctx.request, line);
      var (r, ok) := ProcessRequestLine(ctx.request, line);
      if ok {
        HeadersNeverFail(Context(ExpectHeaders, r), rest);
      }
    }
  }

  /** Every half-good line, with anything behind it, is refused and leaves the context unready. */
  lemma HalfGoodSpoils(line: seq<byte>, tail: seq<byte>)
    requires NoCRLF(line) && HalfGood(line)
    ensures var o := OnMessage(FRESH, line + CRLF + tail); !o.ok && !Ready(o.ctx)
  {
    hide ProcessRequestLine, HalfGood, FirstCRLF;
    LineSplit(line, tail);
    RequestLineVerdict(NO_REQUEST, line);
  }

  /** `GET / HTTP/2.0` is such a line. */
  lemma Http2LineSpoils()
    ensures var line := GET + [SPACE, 47, SPACE] + [72, 84, 84, 80, 47, 50, 46, 48];
            NoCRLF(line) && HalfGood(line)
  {
    hide Find, FirstCRLF;
    var proto: seq<byte> := [72, 84, 84, 80, 47, 50, 46, 48];
    var line := GET + [SPACE, 47, SPACE] + proto;
    assert forall j: nat :: !CRLFAt(line, j);
    FindUnique(line, SPACE, 3);
    var rest := [47, SPACE] + proto;
    assert line[..3] == GET && line[4..] == rest;
    FindUnique(rest, SPACE, 1);
    assert rest[2..] == proto && proto[5] != Protocol(Http11)[5] && proto[5] != Protocol(Http10)[5];
  }

  lemma {:induction false} HeadersNeverFail(ctx: Context, buf: seq<byte>)
    requires ctx.state.ExpectHeaders?
    ensures var o := Parse(ctx, buf); o.ok && !o.ctx.state.ExpectRequestLine?
    decreases |buf|
  {
    hide ProcessRequestLine, AddHeader, Find, FirstCRLF;
    var crlf := FirstCRLF(buf);
    if crlf < |buf| {
      var line := buf[..crlf];
      var colon := Find(line, COLON);
      if colon < |line| {
        HeadersNeverFail(ctx.(request := AddHeader(ctx.request, line, colon)), buf[crlf + 2..]);
      }
    }
  }

  // ----- rendering and parsing back -----

  lemma LineSplit(line: seq<byte>, tail: seq<byte>)
    requires FirstCRLF(line) == |line|
    ensures FirstCRLF(line + CRLF + tail) == |line|
    ensures (line + CRLF + tail)[..|line|] == line && (line + CRLF + tail)[|line| + 2..] == tail
  {
    var s := line + CRLF + tail;
    assert CRLFAt(s, |line|);
    forall j: nat | j < |line| ensures !CRLFAt(s, j) {
      assert CRLFAt(s, j) ==> CRLFAt(line, j);
    }
    FirstCRLFUnique(s, |line|);
  }

  function VerbBytes(m: Verb): seq<byte> {
    match m
    case Get => GET
    case Post => POST
    case Head => HEAD
    case Put => PUT
    case Delete => DELETE
    case Invalid => []
  }

  datatype Header = Header(field: seq<byte>, value: seq<byte>)

  /** A request as a client writes it: the headers in order, duplicates allowed. */
  datatype Message = Message(verb: Verb, path: seq<byte>, version: Version, headers: seq<Header>)

  predicate NoCRLF(s: seq<byte>) {
    FirstCRLF(s) == |s|
  }

  predicate WellFormedHeader(h: Header) {
    && COLON !in h.field && NoCRLF(h.field) && NoCRLF(h.value)
    && (h.value != [] ==> !IsSpace(h.value[0]) && !IsSpace(h.value[|h.value| - 1]))
  }

  predicate WellFormed(m: Message) {
    && !m.verb.Invalid? && !m.version.Unknown?
    && SPACE !in m.path && NoCRLF(m.path)
    && forall h :: h in m.headers ==> WellFormedHeader(h)
  }

  function Protocol(v: Version): seq<byte> {
    HTTP1 + [if v.Http11? then ONE else ZERO]
  }

  function RequestLine(m: Message): seq<byte> {
    VerbBytes(m.verb) + [SPACE] + (m.path + [SPACE] + Protocol(m.version))
  }

  function HeaderLine(h: Header): seq<byte> {
    h.field + [COLON, SPACE] + h.value
  }

  function RenderHeaders(hs: seq<Header>): seq<byte> {
    if hs == [] then CRLF else HeaderLine(hs[0]) + CRLF + RenderHeaders(hs[1..])
  }

  function Render(m: Message): seq<byte> {
    RequestLine(m) + CRLF + RenderHeaders(m.headers)
  }

  /** The header map the message denotes: a later field overrides an earlier equal one. */
  function HeaderMap(acc: map<seq<byte>, seq<byte>>, hs: seq<Header>): map<seq<byte>, seq<byte>>
    decreases |hs|
  {
    if hs == [] then acc else HeaderMap(acc[hs[0].field := hs[0].value], hs[1..])
  }

  lemma RequestLineNoCRLF(m: Message)
    requires WellFormed(m)
    ensures NoCRLF(RequestLine(m))
  {
    var line := RequestLine(m);
    var n := |VerbBytes(m.verb)| + 1;
    forall j: nat | j < |line| ensures !CRLFAt(line, j) {
      if n <= j < n + |m.path| - 1 {
        assert line[j] == m.path[j - n] && line[j + 1] == m.path[j + 1 - n];
        assert !CRLFAt(m.path, j - n);
      }
    }
  }

  lemma VerbBytesParse(v: Verb)
    requires !v.Invalid?
    ensures VerbOf(VerbBytes(v)) == v && SPACE !in VerbBytes(v)
  {
  }

  lemma RequestLineParses(r: Request, m: Message)
    requires WellFormed(m)
    ensures ProcessRequestLine(r, RequestLine(m)) == (r.(verb := m.verb, path := m.path, version := m.version), true)
  {
    hide VerbOf, VerbBytes, Find;
    VerbBytesParse(m.verb);
    var line, name := RequestLine(m), VerbBytes(m.verb);
    var proto := Protocol(m.version);
    var tail := m.path + [SPACE] + proto;
    FindUnique(line, SPACE, |name|);
    FindUnique(tail, SPACE, |m.path|);
    assert line[..|name|] == name && line[|name| + 1..] == tail;
    assert tail[..|m.path|] == m.path && tail[|m.path| + 1..] == proto && proto[..7] == HTTP1;
  }

  lemma HeaderLineNoCRLF(h: Header)
    requires WellFormedHeader(h)
    ensures NoCRLF(HeaderLine(h))
  {
    var line := HeaderLine(h);
    var n := |h.field| + 2;
    forall j: nat | j < |line| ensures !CRLFAt(line, j) {
      if j + 1 < |h.field| {
        assert !CRLFAt(h.field, j);
      } else if n <= j {
        assert line[j] == h.value[j - n];
        assert !CRLFAt(h.value, j - n);
      }
    }
  }

  lemma HeaderLineParses(r: Request, h: Header)
    requires WellFormedHeader(h)
    ensures var line := HeaderLine(h);
            Find(line, COLON) == |h.field| < |line| && AddHeader(r, line, |h.field|) == r.(headers := r.headers[h.field := h.value])
  {
    var line := HeaderLine(h);
    FindUnique(line, COLON, |h.field|);
    assert line[..|h.field|] == h.field;
    var after := line[|h.field| + 1..];
    assert after == [SPACE] + h.value && after[1..] == h.value;
    assert TrimLeft(after) == h.value;
  }

  lemma {:induction false} HeadersParse(r: Request, hs: seq<Header>, tail: seq<byte>)
    requires forall h :: h in hs ==> WellFormedHeader(h)
    ensures Parse(Context(ExpectHeaders, r), RenderHeaders(hs) + tail) ==
            Outcome(true, Context(GotAll, r.(headers := HeaderMap(r.headers, hs))), tail)
    decreases |hs|
  {
    var ctx := Context(ExpectHeaders, r);
    if hs == [] {
      assert RenderHeaders(hs) + tail == [] + CRLF + tail;
      LineSplit([], tail);
    } else {
      var line, rest := HeaderLine(hs[0]), RenderHeaders(hs[1..]) + tail;
      assert hs[0] in hs;
      HeaderLineNoCRLF(hs[0]);
      HeaderLineParses(r, hs[0]);
      assert RenderHeaders(hs) + tail == line + CRLF + rest;
      LineSplit(line, rest);
      HeadersParse(r.(headers := r.headers[hs[0].field := hs[0].value]), hs[1..], tail);
    }
  }

  /** The request a message denotes. */
  function Denoted(m: Message): Request {
    Request(m.verb, m.version, m.path, HeaderMap(map[], m.headers))
  }

  /** A new context, or one reset after a request of any version. */
  function Clean(last: Version): Context {
    Context(ExpectRequestLine, NO_REQUEST.(version := last))
  }

  /** A rendered well-formed request parses back to itself, and nothing behind it is touched. */
  lemma RenderParses(last: Version, m: Message, tail: seq<byte>)
    requires WellFormed(m)
    ensures Parse(Clean(last), Render(m) + tail) == Outcome(true, Context(GotAll, Denoted(m)), tail)
  {
    var rest := RenderHeaders(m.headers) + tail;
    assert Render(m) + tail == RequestLine(m) + CRLF + rest;
    RequestLineNoCRLF(m);
    LineSplit(RequestLine(m), rest);
    RequestLineParses(Clean(last).request, m);
    HeadersParse(Request(m.verb, m.version, m.path, map[]), m.headers, tail);
  }

  // ----- a kept connection -----

  /** The requests handed to the user, and what the connection is left with. */
  datatype Served = Served(requests: seq<Request>, ctx: Context, rest: seq<byte>)

  /** One onMessage per read, up to the first failed one. */
  function Serve(ctx: Context, pending: seq<byte>, inputs: seq<seq<byte>>): Served
    requires Enterable(ctx)
    decreases |inputs|
  {
    if inputs == [] then Served([], ctx, pending)
    else
      var o := Parse(ctx, pending + inputs[0]);
      if o.ctx.state.GotAll? then
        var more := Serve(Reset(o.ctx), o.rest, inputs[1..]);
        more.(requests := [o.ctx.request] + more.requests)
      else if !o.ok then Served([], o.ctx, o.rest)
      else Serve(o.ctx, o.rest, inputs[1..])
  }

  lemma {:induction false} EmptyReads(last: Version, chunks: seq<seq<byte>>, after: seq<seq<byte>>)
    requires Concat(chunks) == []
    ensures Serve(Clean(last), [], chunks + after) == Serve(Clean(last), [], after)
    decreases |chunks|
  {
    if chunks == [] {
      assert chunks + after == after;
    } else {
      assert (chunks + after)[1..] == chunks[1..] + after;
      EmptyReads(last, chunks[1..], after);
    }
  }

  /** One request, in any chunks, on top of an idle context. */
  lemma {:induction false} ServeOne(ctx: Context, pending: seq<byte>, chunks: seq<seq<byte>>, after: seq<seq<byte>>, r: Request)
    requires Enterable(ctx) && Parse(ctx, pending) == Outcome(true, ctx, pending)
    requires Parse(ctx, pending + Concat(chunks)) == Outcome(true, Context(GotAll, r), [])
    ensures var more := Serve(Clean(r.version), [], after);
            Serve(ctx, pending, chunks + after) == more.(requests := [r] + more.requests)
    decreases |chunks|
  {
    hide Parse;
    assert pending + [] == pending;
    if chunks != [] {
      var head, tail := pending + chunks[0], Concat(chunks[1..]);
      assert pending + Concat(chunks) == head + tail;
      assert (chunks + after)[1..] == chunks[1..] + after;
      ParseSplit(ctx, head, tail);
      var o := Parse(ctx, head);
      if Final(o) {
        EmptyReads(r.version, chunks[1..], after);
      } else {
        ParseIdle(ctx, head);
        ServeOne(o.ctx, o.rest, chunks[1..], after, r);
      }
    }
  }

  /** A message and the reads it arrives in. */
  datatype Arrival = Arrival(m: Message, chunks: seq<seq<byte>>)

  predicate Arrived(a: Arrival) {
    WellFormed(a.m) && Concat(a.chunks) == Render(a.m)
  }

  function Reads(arrivals: seq<Arrival>): seq<seq<byte>> {
    if arrivals == [] then [] else arrivals[0].chunks + Reads(arrivals[1..])
  }

  function Requests(arrivals: seq<Arrival>): seq<Request> {
    if arrivals == [] then [] else [Denoted(arrivals[0].m)] + Requests(arrivals[1..])
  }

  /**
   * A connection that carries request after request, each one cut into reads in any way, hands over exactly those
   * requests in order and ends clean.
   */
  lemma {:induction false} KeptConnection(last: Version, arrivals: seq<Arrival>)
    requires forall a :: a in arrivals ==> Arrived(a)
    ensures var s := Serve(Clean(last), [], Reads(arrivals));
            s.requests == Requests(arrivals) && s.rest == [] && exists v :: s.ctx == Clean(v)
    decreases |arrivals|
  {
    if arrivals == [] {
      assert Serve(Clean(last), [], Reads(arrivals)).ctx == Clean(last);
    } else {
      var a := arrivals[0];
      assert Arrived(a);
      RenderParses(last, a.m, []);
      assert Render(a.m) + [] == Render(a.m) && [] + Concat(a.chunks) == Render(a.m);
      ServeOne(Clean(last), [], a.chunks, Reads(arrivals[1..]), Denoted(a.m));
      KeptConnection(a.m.version, arrivals[1..]);
    }
  }

  // ----- what is accepted and what is stored -----

  predicate Blank(s: seq<byte>) {
    forall i :: 0 <= i < |s| ==> IsSpace(s[i])
  }

  /** `v` has no space at either end. */
  predicate Trimmed(v: seq<byte>) {
    v != [] ==> !IsSpace(v[0]) && !IsSpace(v[|v| - 1])
  }

  lemma {:induction false} TrimLeftMeaning(s: seq<byte>) returns (pre: seq<byte>)
    ensures Blank(pre) && s == pre + TrimLeft(s) && (TrimLeft(s) != [] ==> !IsSpace(TrimLeft(s)[0]))
    decreases |s|
  {
    pre := [];
    if s != [] && IsSpace(s[0]) {
      pre := TrimLeftMeaning(s[1..]);
      pre := [s[0]] + pre;
      assert s == [s[0]] + s[1..];
    }
  }

  lemma {:induction false} TrimRightMeaning(s: seq<byte>) returns (post: seq<byte>)
    ensures Blank(post) && s == TrimRight(s) + post && (TrimRight(s) != [] ==> !IsSpace(TrimRight(s)[|TrimRight(s)| - 1]))
    decreases |s|
  {
    post := [];
    if s != [] && IsSpace(s[|s| - 1]) {
      post := TrimRightMeaning(s[..|s| - 1]);
      post := post + [s[|s| - 1]];
      assert s == s[..|s| - 1] + [s[|s| - 1]];
    }
  }

  /** Space, tab, line feed, vertical tab, form feed and carriage return. */
  lemma SpaceIff(b: byte)
    ensures IsSpace(b) <==> b in {32, 9, 10, 11, 12, 13}
  {
  }

  /** For any line and colon: the field gets what follows the colon less the space at both ends, and nothing else changes. */
  lemma HeaderStored(r: Request, line: seq<byte>, colon: nat) returns (pre: seq<byte>, post: seq<byte>)
    requires colon < |line|
    ensures var q, field := AddHeader(r, line, colon), line[..colon];
            && q == r.(headers := q.headers) && q.headers.Keys == r.headers.Keys + {field}
            && (forall f :: f in r.headers && f != field ==> q.headers[f] == r.headers[f])
            && line[colon + 1..] == pre + q.headers[field] + post && Blank(pre) && Blank(post) && Trimmed(q.headers[field])
  {
    hide TrimLeft, TrimRight, IsSpace;
    var rest := line[colon + 1..];
    pre := TrimLeftMeaning(rest);
    var left := TrimLeft(rest);
    post := TrimRightMeaning(left);
    var v := TrimRight(left);
    assert left == v + post && rest == pre + (v + post) == pre + v + post;
    assert v != [] ==> v[0] == left[0];
  }

  /** A header line with a colon is stored under what precedes its first colon, and the parse goes on behind it. */
  lemma HeaderLineStep(ctx: Context, line: seq<byte>, tail: seq<byte>)
    requires ctx.state.ExpectHeaders? && NoCRLF(line) && COLON in line
    ensures var colon := Find(line, COLON);
            && colon < |line| && line[colon] == COLON && COLON !in line[..colon]
            && Parse(ctx, line + CRLF + tail) == Parse(ctx.(request := AddHeader(ctx.request, line, colon)), tail)
  {
    LineSplit(line, tail);
  }

  /** Exactly the five names are methods. */
  lemma VerbIff(s: seq<byte>, v: Verb)
    requires !v.Invalid?
    ensures VerbOf(s) == v <==> s == VerbBytes(v)
  {
    VerbBytesParse(v);
  }

  /** Only the lines of well-formed requests are accepted, and they leave what they say. */
  lemma RequestLineAccepted(r: Request, line: seq<byte>) returns (m: Message)
    requires ProcessRequestLine(r, line).1
    ensures !m.verb.Invalid? && !m.version.Unknown? && SPACE !in m.path && line == RequestLine(m)
    ensures ProcessRequestLine(r, line).0 == r.(verb := m.verb, path := m.path, version := m.version)
  {
    hide VerbOf, VerbBytes, Find, Protocol;
    var sp := Find(line, SPACE);
    var tail := line[sp + 1..];
    var sp2 := Find(tail, SPACE);
    var proto := tail[sp2 + 1..];
    var verb := VerbOf(line[..sp]);
    VerbIff(line[..sp], verb);
    ProtocolBytes(proto);
    m := Message(verb, tail[..sp2], if proto[7] == ONE then Http11 else Http10, []);
    assert tail == tail[..sp2] + [SPACE] + proto;
    assert line == line[..sp] + [SPACE] + tail;
  }

  /** A refused line has set the method it begins with, if it has a space, and the path, if the method and a second space are there. */
  lemma RequestLineRefused(r: Request, line: seq<byte>)
    requires !ProcessRequestLine(r, line).1
    ensures var q, sp := ProcessRequestLine(r, line).0, Find(line, SPACE);
            if SPACE !in line then q == r
            else var tail := line[sp + 1..];
                 && q.verb == VerbOf(line[..sp]) && q.version == r.version && q.headers == r.headers
                 && q.path == if !q.verb.Invalid? && SPACE in tail then tail[..Find(tail, SPACE)] else r.path
  {
    hide VerbOf, Find;
  }
}
