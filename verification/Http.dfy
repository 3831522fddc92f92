/** The HTTP request parser (muduo/net/http/HttpContext.cc, HttpRequest.h). */
module Http {
  import opened Collections
  import opened NetworkOrder
  import opened Buffers

  type Text = seq<Byte>

  datatype Method = InvalidMethod | Get | Post | Head | Put | Delete

  datatype Version = UnknownVersion | Http10 | Http11

  datatype State = ExpectRequestLine | ExpectHeaders | ExpectBody | GotAll

  /** HttpRequest without its receive time. */
  datatype Request = Request(verb: Method, version: Version, path: Text, query: Text, headers: map<Text, Text>)

  const EMPTY := Request(InvalidMethod, UnknownVersion, [], [], map[])

  const CRLF: Text := "\r\n"

  // ---------- scanning ----------

  /** std::find: the first index of c, or |s|. */
  function Find(s: Text, c: Byte): (k: nat)
    ensures k <= |s| && (k < |s| ==> s[k] == c) && c !in s[..k]
  {
    if s == [] || s[0] == c then 0 else 1 + Find(s[1..], c)
  }

  predicate IsSpace(c: Byte) {
    c == ' ' || 9 <= c as int <= 13
  }

  function TrimLeft(s: Text): (r: Text)
    ensures |r| <= |s| && (r != [] ==> !IsSpace(r[0]))
    ensures r == s[|s| - |r|..] && forall i :: 0 <= i < |s| - |r| ==> IsSpace(s[i])
  {
    if s != [] && IsSpace(s[0]) then TrimLeft(s[1..]) else s
  }

  function TrimRight(s: Text): (r: Text)
    ensures |r| <= |s| && (r != [] ==> !IsSpace(r[|r| - 1]))
    ensures r == s[..|r|] && forall i :: |r| <= i < |s| ==> IsSpace(s[i])
  {
    if s != [] && IsSpace(s[|s| - 1]) then TrimRight(s[..|s| - 1]) else s
  }

  function MethodString(m: Method): Text {
    match m
    case Get => "GET"
    case Post => "POST"
    case Head => "HEAD"
    case Put => "PUT"
    case Delete => "DELETE"
    case InvalidMethod => "UNKNOWN"
  }

  function MethodOf(s: Text): Method {
    if s == "GET" then Get
    else if s == "POST" then Post
    else if s == "HEAD" then Head
    else if s == "PUT" then Put
    else if s == "DELETE" then Delete
    else InvalidMethod
  }

  // ---------- one line ----------

  /** processRequestLine: the verdict, and the request as far as it was filled in. */
  function ProcessRequestLine(r: Request, line: Text): (bool, Request) {
    var space := Find(line, ' ');
    if space == |line| then (false, r)
    else
      var m := MethodOf(line[..space]);
      if m.InvalidMethod? then (false, r.(verb := m))
      else ProcessTarget(r.(verb := m), line[space + 1..])
  }

  function ProcessTarget(r: Request, s: Text): (bool, Request) {
    var space := Find(s, ' ');
    if space == |s| then (false, r)
    else
      var question := Find(s[..space], '?');
      var r' := if question != space then r.(path := s[..question], query := s[question..space])
                else r.(path := s[..space]);
      ProcessVersion(r', s[space + 1..])
  }

  function ProcessVersion(r: Request, s: Text): (bool, Request) {
    if |s| == 8 && s[..7] == "HTTP/1." && s[7] == '1' then (true, r.(version := Http11))
    else if |s| == 8 && s[..7] == "HTTP/1." && s[7] == '0' then (true, r.(version := Http10))
    else (false, r)
  }

  function WithHeader(r: Request, line: Text, colon: nat): Request
    requires colon < |line|
  {
    r.(headers := r.headers[line[..colon] := TrimRight(TrimLeft(line[colon + 1..]))])
  }

  predicate Blank(w: Text) {
    forall i :: 0 <= i < |w| ==> IsSpace(w[i])
  }

  /** Nothing, or no white space at either end. */
  predicate Trimmed(v: Text) {
    v == [] || (!IsSpace(v[0]) && !IsSpace(v[|v| - 1]))
  }

  lemma TrimLeftSkips(w: Text, v: Text)
    requires Blank(w) && (v == [] || !IsSpace(v[0]))
    ensures TrimLeft(w + v) == v
  {
    hide TrimLeft;
    var s, r := w + v, TrimLeft(w + v);
    var k := |s| - |r|;
    assert forall i :: 0 <= i < |s| ==> s[i] == if i < |w| then w[i] else v[i - |w|];
    assert r != [] ==> r[0] == s[k];
    assert s[|w|..] == v;
  }

  lemma TrimRightSkips(v: Text, w: Text)
    requires Blank(w) && (v == [] || !IsSpace(v[|v| - 1]))
    ensures TrimRight(v + w) == v
  {
    hide TrimRight;
    var s, r := v + w, TrimRight(v + w);
    assert forall i :: 0 <= i < |s| ==> s[i] == if i < |v| then v[i] else w[i - |v|];
    assert r != [] ==> r[|r| - 1] == s[|r| - 1];
    assert s[..|v|] == v;
  }

  /** What addHeader stores for any line: whatever stands between the white space after the colon and
      the white space at the end, under exactly the text before the colon; all else is kept. */
  lemma HeaderStored(r: Request, line: Text, colon: nat, w1: Text, v: Text, w2: Text)
    requires colon < |line| && line[colon + 1..] == w1 + v + w2 && Blank(w1) && Trimmed(v) && Blank(w2)
    ensures WithHeader(r, line, colon) == r.(headers := r.headers[line[..colon] := v])
  {
    if v == [] {
      assert w1 + v + w2 == (w1 + w2) + [];
      TrimLeftSkips(w1 + w2, []);
    } else {
      assert w1 + v + w2 == w1 + (v + w2);
      TrimLeftSkips(w1, v + w2);
      TrimRightSkips(v, w2);
    }
  }

  // ---------- one call of parseRequest ----------

  datatype Context = Context(state: State, request: Request)

  datatype Outcome = Outcome(ok: bool, context: Context, rest: Text) {
    /** The server drops the connection or resets the context: nothing more is fed in. */
    predicate Final() {
      !ok || context.state == GotAll
    }
  }

  /** Where parseRequest may be called: setMethod asserts that no method has been set yet. */
  predicate Parsing(c: Context) {
    (c.state == ExpectRequestLine && c.request.verb == InvalidMethod) || c.state == ExpectHeaders
  }

  /** One line (without its CRLF) taken in: whether it is accepted, and the context after it. */
  function TakeLine(c: Context, line: Text): (bool, Context)
    requires Parsing(c)
  {
    if c.state == ExpectRequestLine then
      var (ok, r) := ProcessRequestLine(c.request, line);
      (ok, Context(if ok then ExpectHeaders else ExpectRequestLine, r))
    else
      var colon := Find(line, ':');
      if colon != |line| then (true, c.(request := WithHeader(c.request, line, colon)))
      else (true, c.(state := GotAll))
  }

  function ParseRequest(c: Context, s: Text): (o: Outcome)
    requires Parsing(c)
    ensures !o.Final() ==> Parsing(o.context)
    decreases |s|
  {
    var crlf := FindCRLF(s);
    if crlf == |s| then Outcome(true, c, s)
    else
      var (ok, c') := TakeLine(c, s[..crlf]);
      if !ok then Outcome(false, c', s)
      else if c'.state == GotAll then Outcome(true, c', s[crlf + 2..])
      else ParseRequest(c', s[crlf + 2..])
  }

  lemma ParseUnfold(c: Context, s: Text)
    requires Parsing(c)
    ensures var k := FindCRLF(s);
            if k == |s| then ParseRequest(c, s) == Outcome(true, c, s)
            else
              var t := TakeLine(c, s[..k]);
              if !t.0 then ParseRequest(c, s) == Outcome(false, t.1, s)
              else if t.1.state == GotAll then ParseRequest(c, s) == Outcome(true, t.1, s[k + 2..])
              else ParseRequest(c, s) == ParseRequest(t.1, s[k + 2..])
  {
  }

  class HttpContext {
    var state: State
    var request: Request

    function Value(): Context
      reads this
    {
      Context(state, request)
    }

    constructor ()
      ensures Value() == Context(ExpectRequestLine, EMPTY)
    {
      state, request := ExpectRequestLine, EMPTY;
    }

    method AddHeader(line: Text, colon: nat)
      requires colon < |line|
      modifies this`request
      ensures request == WithHeader(old(request), line, colon)
    {
      var field := line[..colon];
      var start := colon + 1;
      while start < |line| && IsSpace(line[start])
        invariant colon < start <= |line|
        invariant TrimLeft(line[colon + 1..]) == TrimLeft(line[start..])
      {
        assert line[start..][1..] == line[start + 1..];
        start := start + 1;
      }
      var value := line[start..];
      while value != [] && IsSpace(value[|value| - 1])
        invariant TrimRight(line[start..]) == TrimRight(value)
        decreases |value|
      {
        value := value[..|value| - 1];
      }
      request := request.(headers := request.headers[field := value]);
    }

    /** Each turn of the loop consumes a line: readable bytes are its measure. */
    method Parse(buf: Buffer) returns (ok: bool)
      requires buf.Valid() && Parsing(Value())
      modifies this, buf
      ensures buf.Valid()
      ensures Outcome(ok, Value(), buf.Contents()) == ParseRequest(old(Value()), old(buf.Contents()))
    {
      hide ProcessRequestLine, WithHeader, ParseRequest, FindCRLF, Find;
      ok := true;
      var hasMore := true;
      ghost var result := ParseRequest(Value(), buf.Contents());
      while hasMore
        invariant buf.Valid()
        invariant hasMore ==> ok && Parsing(Value()) && result == ParseRequest(Value(), buf.Contents())
        invariant !hasMore ==> result == Outcome(ok, Value(), buf.Contents())
        decreases hasMore, buf.ReadableBytes()
      {
        var s := buf.Contents();
        var crlf := FindCRLF(s);
        ParseUnfold(Value(), s);
        if crlf == |s| {
          hasMore := false;
        } else if state == ExpectRequestLine {
          var (succeed, r) := ProcessRequestLine(request, s[..crlf]);
          ok, request := succeed, r;
          if ok {
            buf.Retrieve(crlf + 2);
            state := ExpectHeaders;
          } else {
            hasMore := false;
          }
        } else {
          var colon := Find(s[..crlf], ':');
          if colon != crlf {
            AddHeader(s[..crlf], colon);
          } else {
            state := GotAll;
            hasMore := false;
          }
          buf.Retrieve(crlf + 2);
        }
      }
    }
  }

  // ---------- chunking ----------

  lemma FindCRLFAppend(a: Text, b: Text)
    requires FindCRLF(a) < |a|
    ensures FindCRLF(a + b) == FindCRLF(a)
  {
    var k, k' := FindCRLF(a), FindCRLF(a + b);
    assert (a + b)[k] == '\r' && (a + b)[k + 1] == '\n';
    assert forall i :: 0 <= i < |a| ==> (a + b)[i] == a[i];
  }

  lemma {:induction false} ParseAppend(c: Context, a: Text, b: Text)
    requires Parsing(c)
    ensures var o := ParseRequest(c, a);
            ParseRequest(c, a + b) == if o.Final() then o.(rest := o.rest + b) else ParseRequest(o.context, o.rest + b)
    decreases |a|
  {
    hide ProcessRequestLine, WithHeader, TakeLine, ParseRequest, FindCRLF;
    ParseUnfold(c, a);
    var k := FindCRLF(a);
    if k < |a| {
      FindCRLFAppend(a, b);
      ParseUnfold(c, a + b);
      assert (a + b)[..k] == a[..k] && (a + b)[k + 2..] == a[k + 2..] + b;
      TakeLineParses(c, a[..k]);
      var (ok, c') := TakeLine(c, a[..k]);
      if ok && c'.state != GotAll {
        ParseAppend(c', a[k + 2..], b);
      }
    }
  }

  lemma TakeLineParses(c: Context, line: Text)
    requires Parsing(c)
    ensures var (ok, c') := TakeLine(c, line); ok && c'.state != GotAll ==> Parsing(c')
  {
    hide ProcessRequestLine, WithHeader;
  }

  /** Chunks fed in one after the other, each to what the last call left, until a call is final. */
  function Feed(c: Context, buffered: Text, chunks: seq<Text>): Outcome
    requires Parsing(c)
    decreases |chunks|
  {
    if chunks == [] then Outcome(true, c, buffered)
    else
      var o := ParseRequest(c, buffered + chunks[0]);
      if o.Final() then o.(rest := o.rest + Concat(chunks[1..]))
      else Feed(o.context, o.rest, chunks[1..])
  }

  /** Verdict, state, request and left-over bytes do not depend on how the input was cut. */
  lemma {:induction false} ChunkingIsInvisible(c: Context, buffered: Text, chunks: seq<Text>)
    requires Parsing(c) && chunks != []
    ensures Feed(c, buffered, chunks) == ParseRequest(c, buffered + Concat(chunks))
    decreases |chunks|
  {
    hide ParseRequest;
    var a, b := buffered + chunks[0], Concat(chunks[1..]);
    ConcatCons(chunks);
    assert buffered + Concat(chunks) == a + b;
    ParseAppend(c, a, b);
    var o := ParseRequest(c, a);
    if |chunks| == 1 {
      assert o.rest + b == o.rest;
      assert a + [] == a;
      assert !o.Final() ==> Feed(o.context, o.rest, chunks[1..]) == Outcome(true, o.context, o.rest);
    } else if !o.Final() {
      ChunkingIsInvisible(o.context, o.rest, chunks[1..]);
    }
  }

  // ---------- printing and parsing back ----------

  datatype Header = Header(field: Text, value: Text)

  /** A request as a client would write it. */
  datatype Message = Message(verb: Method, path: Text, query: Text, version: Version, headers: seq<Header>)

  predicate NoCRLF(s: Text) {
    forall i :: 0 <= i < |s| - 1 ==> !(s[i] == '\r' && s[i + 1] == '\n')
  }

  predicate WellFormedHeader(h: Header) {
    && ':' !in h.field && NoCRLF(h.field) && NoCRLF(h.value)
    && TrimLeft(h.value) == h.value && TrimRight(h.value) == h.value
  }

  predicate WellFormed(m: Message) {
    && m.verb != InvalidMethod && m.version != UnknownVersion
    && ' ' !in m.path && '?' !in m.path && NoCRLF(m.path)
    && ' ' !in m.query && (m.query != [] ==> m.query[0] == '?') && NoCRLF(m.query)
    && forall i :: 0 <= i < |m.headers| ==> WellFormedHeader(m.headers[i])
  }

  function RequestLine(m: Message): Text {
    MethodString(m.verb) + " " + m.path + m.query + " HTTP/1." + if m.version == Http11 then "1" else "0"
  }

  function HeaderLine(h: Header): Text {
    h.field + ": " + h.value
  }

  function PrintHeaders(hs: seq<Header>): Text {
    if hs == [] then CRLF else HeaderLine(hs[0]) + CRLF + PrintHeaders(hs[1..])
  }

  function Print(m: Message): Text {
    RequestLine(m) + CRLF + PrintHeaders(m.headers)
  }

  function AddHeaders(r: Request, hs: seq<Header>): Request
    decreases |hs|
  {
    if hs == [] then r
    else AddHeaders(r.(headers := r.headers[hs[0].field := hs[0].value]), hs[1..])
  }

  function RequestOf(m: Message): Request {
    AddHeaders(Request(m.verb, m.version, m.path, m.query, map[]), m.headers)
  }

  lemma LineEnds(line: Text, t: Text)
    requires NoCRLF(line) && (line != [] ==> line[|line| - 1] != '\r')
    ensures FindCRLF(line + CRLF + t) == |line|
    ensures (line + CRLF + t)[..|line|] == line && (line + CRLF + t)[|line| + 2..] == t
  {
    var s := line + CRLF + t;
    var k := FindCRLF(s);
    assert s[|line|] == '\r' && s[|line| + 1] == '\n';
    assert forall i :: 0 <= i < |line| ==> s[i] == line[i];
  }

  lemma FindIs(s: Text, c: Byte, k: nat)
    requires k <= |s| && c !in s[..k] && (k < |s| ==> s[k] == c)
    ensures Find(s, c) == k
  {
  }

  lemma HeaderLineSplits(h: Header)
    requires ':' !in h.field
    ensures var line, n := HeaderLine(h), |h.field|;
            n < |line| && Find(line, ':') == n && line[..n] == h.field && line[n + 1..] == " " + h.value
  {
    hide Find;
    var line, n := HeaderLine(h), |h.field|;
    assert line[..n] == h.field && line[n] == ':';
    FindIs(line, ':', n);
  }

  lemma HeaderLineParses(r: Request, h: Header)
    requires WellFormedHeader(h)
    ensures |h.field| < |HeaderLine(h)| && Find(HeaderLine(h), ':') == |h.field|
    ensures WithHeader(r, HeaderLine(h), |h.field|) == r.(headers := r.headers[h.field := h.value])
  {
    hide NoCRLF, Find, HeaderLine, WithHeader;
    HeaderLineSplits(h);
    assert " " + h.value == " " + h.value + "";
    HeaderStored(r, HeaderLine(h), |h.field|, " ", h.value, "");
  }

  lemma HeaderLineNoCRLF(h: Header)
    requires WellFormedHeader(h)
    ensures var line := HeaderLine(h); NoCRLF(line) && line[|line| - 1] != '\r'
  {
  }

  lemma HeaderStep(c: Context, h: Header, u: Text)
    requires c.state == ExpectHeaders && WellFormedHeader(h)
    ensures ParseRequest(c, HeaderLine(h) + CRLF + u)
         == ParseRequest(c.(request := c.request.(headers := c.request.headers[h.field := h.value])), u)
  {
    hide WithHeader, NoCRLF, FindCRLF, HeaderLine;
    HeaderLineParses(c.request, h);
    HeaderLineNoCRLF(h);
    LineEnds(HeaderLine(h), u);
    var s := HeaderLine(h) + CRLF + u;
    assert s[..|HeaderLine(h)|] == HeaderLine(h);
    assert TakeLine(c, HeaderLine(h)) == (true, c.(request := WithHeader(c.request, HeaderLine(h), |h.field|)));
  }

  /** Every line of the header part with a colon, however it is spaced, is stored and consumed. */
  lemma AnyHeaderLine(c: Context, line: Text, colon: nat, w1: Text, v: Text, w2: Text, t: Text)
    requires c.state == ExpectHeaders && NoCRLF(line) && (line != [] ==> line[|line| - 1] != '\r')
    requires colon < |line| && ':' !in line[..colon] && line[colon] == ':'
    requires line[colon + 1..] == w1 + v + w2 && Blank(w1) && Trimmed(v) && Blank(w2)
    ensures ParseRequest(c, line + CRLF + t)
         == ParseRequest(c.(request := c.request.(headers := c.request.headers[line[..colon] := v])), t)
  {
    hide WithHeader, FindCRLF, NoCRLF, Find, ParseRequest, Blank, Trimmed;
    LineEnds(line, t);
    FindIs(line, ':', colon);
    HeaderStored(c.request, line, colon, w1, v, w2);
    ParseUnfold(c, line + CRLF + t);
  }

  /** Every line of the header part without a colon, empty or not, ends the request. */
  lemma NoColonEndsHeaders(c: Context, line: Text, t: Text)
    requires c.state == ExpectHeaders && NoCRLF(line) && (line != [] ==> line[|line| - 1] != '\r') && ':' !in line
    ensures ParseRequest(c, line + CRLF + t) == Outcome(true, c.(state := GotAll), t)
  {
    hide WithHeader, FindCRLF, NoCRLF, Find, ParseRequest;
    LineEnds(line, t);
    assert line[..|line|] == line;
    FindIs(line, ':', |line|);
    ParseUnfold(c, line + CRLF + t);
  }

  /** What is left in the buffer: after a rejection everything from the rejected request line on,
      otherwise, unless the request is complete, at most a part of a line. */
  lemma {:induction false} WhatIsLeft(c: Context, s: Text)
    requires Parsing(c)
    ensures var o := ParseRequest(c, s);
            && |o.rest| <= |s| && o.rest == s[|s| - |o.rest|..]
            && (!o.ok ==> o.rest == s && c.state == ExpectRequestLine && FindCRLF(s) < |s|
                          && !ProcessRequestLine(c.request, s[..FindCRLF(s)]).0)
            && (!o.Final() ==> FindCRLF(o.rest) == |o.rest|)
    decreases |s|
  {
    hide ProcessRequestLine, WithHeader, ParseRequest;
    ParseUnfold(c, s);
    var k := FindCRLF(s);
    if k < |s| {
      var (ok, c') := TakeLine(c, s[..k]);
      if ok && c'.state != GotAll {
        WhatIsLeft(c', s[k + 2..]);
      }
    }
  }

  lemma {:induction false} HeadersParse(c: Context, hs: seq<Header>, t: Text)
    requires c.state == ExpectHeaders && forall i :: 0 <= i < |hs| ==> WellFormedHeader(hs[i])
    ensures ParseRequest(c, PrintHeaders(hs) + t) == Outcome(true, Context(GotAll, AddHeaders(c.request, hs)), t)
    decreases |hs|
  {
    if hs == [] {
      LineEnds([], t);
      assert [] + CRLF + t == CRLF + t;
    } else {
      hide ParseRequest, HeaderLine, WellFormedHeader;
      var h, u := hs[0], PrintHeaders(hs[1..]) + t;
      assert PrintHeaders(hs) + t == HeaderLine(h) + CRLF + u;
      HeaderStep(c, h, u);
      HeadersParse(c.(request := c.request.(headers := c.request.headers[h.field := h.value])), hs[1..], t);
    }
  }

  lemma MethodParses(m: Method, s: Text)
    requires m != InvalidMethod
    ensures MethodOf(MethodString(m)) == m && ' ' !in MethodString(m) && NoCRLF(MethodString(m))
    ensures var k := |MethodString(m)|; var line := MethodString(m) + " " + s;
            Find(line, ' ') == k && line[..k] == MethodString(m) && line[k + 1..] == s
  {
    var k := |MethodString(m)|;
    var line := MethodString(m) + " " + s;
    assert line[..k] == MethodString(m) && line[k + 1..] == s;
    FindIs(line, ' ', k);
  }

  function VersionText(v: Version): Text {
    "HTTP/1." + if v == Http11 then "1" else "0"
  }

  lemma TargetParses(r: Request, m: Message)
    requires WellFormed(m) && r.query == []
    ensures ProcessTarget(r, m.path + m.query + " " + VersionText(m.version))
         == (true, r.(path := m.path, query := m.query, version := m.version))
  {
    var target := m.path + m.query;
    var s := target + " " + VersionText(m.version);
    assert s[..|target|] == target && s[|target| + 1..] == VersionText(m.version);
    FindIs(s, ' ', |target|);
    assert target[..|m.path|] == m.path && target[|m.path|..] == m.query;
    FindIs(target, '?', |m.path|);
    assert s[..|m.path|] == m.path && s[|m.path|..|target|] == m.query;
    assert VersionText(m.version)[..7] == "HTTP/1.";
  }

  lemma RequestLineParses(m: Message)
    requires WellFormed(m)
    ensures ProcessRequestLine(EMPTY, RequestLine(m)) == (true, Request(m.verb, m.version, m.path, m.query, map[]))
  {
    var s := m.path + m.query + " " + VersionText(m.version);
    assert RequestLine(m) == MethodString(m.verb) + " " + s;
    MethodParses(m.verb, s);
    TargetParses(EMPTY.(verb := m.verb), m);
  }

  lemma MethodPrints(s: Text)
    requires MethodOf(s) != InvalidMethod
    ensures MethodString(MethodOf(s)) == s
  {
  }

  lemma AcceptedVersion(r: Request, v: Text)
    requires ProcessVersion(r, v).0
    ensures var q := ProcessVersion(r, v).1;
            v == VersionText(q.version) && q.version != UnknownVersion && q == r.(version := q.version)
  {
    assert v == v[..7] + [v[7]];
  }

  lemma AcceptedTarget(r: Request, s: Text)
    requires ProcessTarget(r, s).0 && r.query == []
    ensures var q := ProcessTarget(r, s).1;
            && s == q.path + q.query + " " + VersionText(q.version) && q.version != UnknownVersion
            && q.verb == r.verb && q.headers == r.headers
            && ' ' !in q.path && '?' !in q.path && ' ' !in q.query && (q.query != [] ==> q.query[0] == '?')
  {
    hide Find, ProcessVersion, VersionText;
    var space := Find(s, ' ');
    var target, v := s[..space], s[space + 1..];
    var question := Find(target, '?');
    assert s == target + " " + v;
    assert target == target[..question] + target[question..];
    assert s[..question] == target[..question] && s[question..space] == target[question..];
    var r' := if question != space then r.(path := s[..question], query := s[question..space])
              else r.(path := s[..space]);
    AcceptedVersion(r', v);
  }

  /** Conversely, an accepted request line is the printing of the request read from it. */
  lemma AcceptedLineIsPrinted(line: Text)
    requires ProcessRequestLine(EMPTY, line).0
    ensures var q := ProcessRequestLine(EMPTY, line).1;
            && line == RequestLine(Message(q.verb, q.path, q.query, q.version, []))
            && q.verb != InvalidMethod && q.version != UnknownVersion && q.headers == map[]
            && ' ' !in q.path && '?' !in q.path && ' ' !in q.query && (q.query != [] ==> q.query[0] == '?')
  {
    hide ProcessTarget, MethodString, MethodOf, Find, RequestLine, VersionText;
    var space := Find(line, ' ');
    var m := MethodOf(line[..space]);
    MethodPrints(line[..space]);
    AcceptedTarget(EMPTY.(verb := m), line[space + 1..]);
    assert line == line[..space] + " " + line[space + 1..];
    var q := ProcessRequestLine(EMPTY, line).1;
    RequestLineParts(Message(q.verb, q.path, q.query, q.version, []));
    assert q.path + q.query + " " + VersionText(q.version) == q.path + (q.query + (" " + VersionText(q.version)));
  }

  lemma NoCRLFJoin(a: Text, b: Text)
    requires NoCRLF(a) && NoCRLF(b) && (b != [] ==> b[0] != '\n')
    ensures NoCRLF(a + b)
  {
    assert forall i :: |a| <= i < |a + b| ==> (a + b)[i] == b[i - |a|];
  }

  lemma VersionEnds(v: Version)
    ensures NoCRLF(" " + VersionText(v)) && |VersionText(v)| == 8 && VersionText(v)[7] != '\r'
  {
  }

  lemma RequestLineParts(m: Message)
    ensures RequestLine(m) == MethodString(m.verb) + (" " + (m.path + (m.query + (" " + VersionText(m.version)))))
  {
    hide MethodString;
    assert " HTTP/1." == " " + "HTTP/1.";
  }

  lemma RequestLineEnds(m: Message)
    requires WellFormed(m)
    ensures var line := RequestLine(m); NoCRLF(line) && line[|line| - 1] != '\r'
  {
    hide VersionText, MethodString;
    MethodParses(m.verb, []);
    VersionEnds(m.version);
    var tail := " " + VersionText(m.version);
    NoCRLFJoin(m.query, tail);
    assert RequestLine(m) == MethodString(m.verb) + (" " + (m.path + (m.query + tail))) by { RequestLineParts(m); }
    assert m.query != [] ==> (m.query + tail)[0] == '?';
    var rest := m.path + (m.query + tail);
    NoCRLFJoin(m.path, m.query + tail);
    assert NoCRLF(" " + rest) by { assert forall i :: 1 <= i < |" " + rest| ==> (" " + rest)[i] == rest[i - 1]; }
    NoCRLFJoin(MethodString(m.verb), " " + rest);
  }

  /** Whatever well-formed request a client prints, the parser reads back, with the bytes after it
      left in the buffer. */
  lemma PrintedRequestParses(m: Message, t: Text)
    requires WellFormed(m)
    ensures ParseRequest(Context(ExpectRequestLine, EMPTY), Print(m) + t)
         == Outcome(true, Context(GotAll, RequestOf(m)), t)
  {
    hide RequestLine, ProcessRequestLine, WellFormedHeader;
    RequestLineParses(m);
    RequestLineEnds(m);
    var line, u := RequestLine(m), PrintHeaders(m.headers) + t;
    LineEnds(line, u);
    assert Print(m) + t == line + CRLF + u;
    HeadersParse(Context(ExpectHeaders, Request(m.verb, m.version, m.path, m.query, map[])), m.headers, t);
  }

  /** ...also when it arrives in pieces. */
  lemma PrintedRequestArrives(m: Message, t: Text, chunks: seq<Text>)
    requires WellFormed(m) && chunks != [] && Concat(chunks) == Print(m) + t
    ensures Feed(Context(ExpectRequestLine, EMPTY), [], chunks) == Outcome(true, Context(GotAll, RequestOf(m)), t)
  {
    hide Print, Feed, ParseRequest, WellFormed;
    ChunkingIsInvisible(Context(ExpectRequestLine, EMPTY), [], chunks);
    assert [] + Concat(chunks) == Concat(chunks);
    PrintedRequestParses(m, t);
  }

  /** No other header appears. */
  lemma {:induction false} HeaderFields(r: Request, hs: seq<Header>)
    ensures AddHeaders(r, hs).headers.Keys == r.headers.Keys + set h | h in hs :: h.field
    decreases |hs|
  {
    if hs != [] {
      var r' := r.(headers := r.headers[hs[0].field := hs[0].value]);
      HeaderFields(r', hs[1..]);
      assert hs == [hs[0]] + hs[1..];
    }
  }

  /** With distinct fields, every header is found under its own name. */
  lemma {:induction false} HeadersKept(r: Request, hs: seq<Header>, i: nat)
    requires i < |hs| && forall j :: i < j < |hs| ==> hs[j].field != hs[i].field
    ensures hs[i].field in AddHeaders(r, hs).headers && AddHeaders(r, hs).headers[hs[i].field] == hs[i].value
    decreases |hs|
  {
    var r' := r.(headers := r.headers[hs[0].field := hs[0].value]);
    if i > 0 {
      HeadersKept(r', hs[1..], i - 1);
    } else {
      OthersKeep(r', hs[1..], hs[0].field);
    }
  }

  lemma {:induction false} OthersKeep(r: Request, hs: seq<Header>, f: Text)
    requires f in r.headers && forall j :: 0 <= j < |hs| ==> hs[j].field != f
    ensures f in AddHeaders(r, hs).headers && AddHeaders(r, hs).headers[f] == r.headers[f]
    decreases |hs|
  {
    if hs != [] {
      OthersKeep(r.(headers := r.headers[hs[0].field := hs[0].value]), hs[1..], f);
    }
  }
}
