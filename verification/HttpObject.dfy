/** HttpRequest, HttpContext and parseRequest over a real buffer, proved to compute the functions of `Http`. */
module HttpObjects {
  import opened Wire
  import opened Buffers
  import opened Http

  class HttpRequest {
    var verb: Verb
    var version: Version
    var path: seq<byte>
    var headers: map<seq<byte>, seq<byte>>

    function View(): Request
      reads this
    {
      Request(verb, version, path, headers)
    }

    constructor ()
      ensures View() == NO_REQUEST
    {
      verb, version, path, headers := Invalid, Unknown, [], map[];
    }

    method SetMethod(name: seq<byte>) returns (ok: bool)
      requires verb.Invalid?
      modifies this`verb
      ensures verb == VerbOf(name) && ok == !verb.Invalid?
    {
      if name == GET {
        verb := Verb.Get;
      } else if name == POST {
        verb := Post;
      } else if name == HEAD {
        verb := Head;
      } else if name == PUT {
        verb := Verb.Put;
      } else if name == DELETE {
        verb := Delete;
      } else {
        verb := Invalid;
      }
      ok := verb != Invalid;
    }

    /** Stores a header line, trimming the value from both ends. */
    method AddHeader(line: seq<byte>, colon: nat)
      requires colon < |line|
      modifies this`headers
      ensures View() == Http.AddHeader(old(View()), line, colon)
    {
      var field := line[..colon];
      var start := colon + 1;
      while start < |line| && IsSpace(line[start])
        invariant colon < start <= |line|
        invariant TrimLeft(line[start..]) == TrimLeft(line[colon + 1..])
      {
        assert line[start..][1..] == line[start + 1..];
        start := start + 1;
      }
      var value := line[start..];
      assert TrimLeft(value) == value;
      while value != [] && IsSpace(value[|value| - 1])
        invariant TrimRight(value) == TrimRight(TrimLeft(line[colon + 1..]))
        decreases |value|
      {
        value := value[..|value| - 1];
      }
      headers := headers[field := value];
    }

    /** Exchanges everything but the version. */
    method Swap(that: HttpRequest)
      requires that != this
      modifies this, that
      ensures View() == old(that.View()).(version := old(version))
      ensures that.View() == old(View()).(version := old(that.version))
    {
      verb, that.verb := that.verb, verb;
      path, that.path := that.path, path;
      headers, that.headers := that.headers, headers;
    }
  }

  class HttpContext {
    var state: ParseState
    const request: HttpRequest

    function View(): Context
      reads this, request
    {
      Context(state, request.View())
    }

    constructor ()
      ensures View() == FRESH && fresh(request)
    {
      state := ExpectRequestLine;
      var r := new HttpRequest();
      request := r;
    }

    method Reset()
      modifies this, request
      ensures View() == Http.Reset(old(View()))
    {
      state := ExpectRequestLine;
      var dummy := new HttpRequest();
      request.Swap(dummy);
    }

    method ProcessRequestLine(line: seq<byte>) returns (succeed: bool)
      requires request.verb.Invalid?
      modifies request
      ensures (request.View(), succeed) == Http.ProcessRequestLine(old(request.View()), line)
    {
      hide VerbOf, Find;
      succeed := false;
      var space := Find(line, SPACE);
      if space != |line| {
        var ok := request.SetMethod(line[..space]);
        if ok {
          var tail := line[space + 1..];
          space := Find(tail, SPACE);
          if space != |tail| {
            request.path := tail[..space];
            var proto := tail[space + 1..];
            succeed := |proto| == 8 && proto[..7] == HTTP1;
            if succeed {
              if proto[7] == ONE {
                request.version := Http11;
              } else if proto[7] == ZERO {
                request.version := Http10;
              } else {
                succeed := false;
              }
            }
          }
        }
      }
    }
  }

  /** The body of parseRequest's loop when a header line is expected; `more` is the loop's hasMore. */
  method ParseHeaderLine(buf: Buffer, context: HttpContext) returns (more: bool)
    requires buf.Valid() && context.state.ExpectHeaders?
    modifies buf, context, context.request
    ensures buf.Valid() && buf.data == old(buf.data)
    ensures more ==> context.state.ExpectHeaders? && buf.ReadableBytes() < old(buf.ReadableBytes())
                     && Parse(old(context.View()), old(buf.Contents())) == Parse(context.View(), buf.Contents())
    ensures !more ==> Parse(old(context.View()), old(buf.Contents())) == Outcome(true, context.View(), buf.Contents())
  {
    var crlf := buf.FindCRLF(0);
    var bytes := buf.Peek();
    assert bytes[0..] == bytes;
    if crlf == |bytes| {
      return false;
    }
    var line := bytes[..crlf];
    var colon := Find(line, COLON);
    if colon != crlf {
      context.request.AddHeader(line, colon);
      more := true;
    } else {
      context.state := GotAll;
      more := false;
    }
    buf.Retrieve(crlf + 2);
  }

  /** The body of the loop when the request line is expected. */
  method ParseRequestLine(buf: Buffer, context: HttpContext) returns (ok: bool, more: bool)
    requires buf.Valid() && Ready(context.View()) && context.state.ExpectRequestLine?
    modifies buf, context, context.request
    ensures buf.Valid() && buf.data == old(buf.data)
    ensures more ==> ok && context.state.ExpectHeaders? && buf.ReadableBytes() < old(buf.ReadableBytes())
                     && Parse(old(context.View()), old(buf.Contents())) == Parse(context.View(), buf.Contents())
    ensures !more ==> Parse(old(context.View()), old(buf.Contents())) == Outcome(ok, context.View(), buf.Contents())
  {
    hide Http.ProcessRequestLine, Http.AddHeader, Find, FirstCRLF;
    ok, more := true, false;
    var crlf := buf.FindCRLF(0);
    var bytes := buf.Peek();
    assert bytes[0..] == bytes;
    if crlf != |bytes| {
      ok := context.ProcessRequestLine(bytes[..crlf]);
      if ok {
        buf.Retrieve(crlf + 2);
        context.state := ExpectHeaders;
        more := true;
      }
    }
  }

  /** parseRequest: every continuing iteration consumes a line, so the loop ends. */
  method ParseRequest(buf: Buffer, context: HttpContext) returns (ok: bool)
    requires buf.Valid() && Ready(context.View())
    modifies buf, context, context.request
    ensures buf.Valid() && buf.data == old(buf.data)
    ensures Outcome(ok, context.View(), buf.Contents()) == Parse(old(context.View()), old(buf.Contents()))
  {
    ok := true;
    var hasMore := true;
    while hasMore
      invariant buf.Valid() && buf.data == old(buf.data)
      invariant hasMore ==> ok && Ready(context.View())
                            && Parse(context.View(), buf.Contents()) == Parse(old(context.View()), old(buf.Contents()))
      invariant !hasMore ==> Outcome(ok, context.View(), buf.Contents()) == Parse(old(context.View()), old(buf.Contents()))
      decreases hasMore, buf.ReadableBytes()
    {
      if context.state == ExpectRequestLine {
        ok, hasMore := ParseRequestLine(buf, context);
      } else {
        hasMore := ParseHeaderLine(buf, context);
      }
    }
  }

  /** onMessage up to the user's callback: the completed request, if any, and a context ready for the next one. */
  method HandleMessage(buf: Buffer, context: HttpContext) returns (ok: bool, complete: bool, request: Request)
    requires buf.Valid() && Ready(context.View())
    modifies buf, context, context.request
    ensures buf.Valid() && buf.data == old(buf.data)
    ensures Outcome(ok, context.View(), buf.Contents()) == OnMessage(old(context.View()), old(buf.Contents()))
    ensures Enterable(context.View())
    ensures var o := Parse(old(context.View()), old(buf.Contents()));
            complete == o.ctx.state.GotAll? && request == o.ctx.request
  {
    ok := ParseRequest(buf, context);
    request := context.request.View();
    complete := context.state == GotAll;
    if complete {
      context.Reset();
    }
  }
}
