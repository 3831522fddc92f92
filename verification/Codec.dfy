/** Length-prefixed, checksummed message framing (muduo/net/protobuf/ProtobufCodecLite.cc). */
module FrameCodec {
  import opened Collections
  import opened NetworkOrder
  import opened Buffers

  const HEADER_LEN := 4
  const CHECKSUM_LEN := 4
  const MAX_MESSAGE_LEN := 64 * 1024 * 1024

  datatype ErrorCode = InvalidLength | CheckSumError | UnknownMessageType | ParseError

  datatype Parsed<+Msg> = Ok(message: Msg) | Bad(error: ErrorCode)

  /** The message library is abstract: how messages become bytes and back.  `accepts` is the raw
      callback, constantly true when none is installed. */
  datatype Codec<!Msg> = Codec(tag: seq<Byte>, serialize: Msg -> seq<Byte>, deserialize: seq<Byte> -> Option<Msg>,
                               accepts: seq<Byte> -> bool) {
    function MinMessageLen(): nat {
      |tag| + CHECKSUM_LEN
    }
  }

  ghost predicate ParseInvertsSerialize<Msg(!new)>(c: Codec<Msg>) {
    forall m: Msg :: c.deserialize(c.serialize(m)) == Some(m)
  }

  /** Adler-32, section 8.2 of RFC 1950. */
  function Adler(s: seq<Byte>): (nat, nat) {
    if s == [] then (1, 0)
    else
      var (a, b) := Adler(s[..|s| - 1]);
      var a' := (a + s[|s| - 1] as int) % 65521;
      (a', (b + a') % 65521)
  }

  /** The sums Adler-32 is defined by, before any reduction: 1 plus the bytes, and the sum of those. */
  function Sums(s: seq<Byte>): (nat, nat) {
    if s == [] then (1, 0)
    else
      var (a, b) := Sums(s[..|s| - 1]);
      var a' := a + s[|s| - 1] as int;
      (a', b + a')
  }

  /** Reducing at every byte or once at the end is the same. */
  lemma {:induction false} AdlerIsSums(s: seq<Byte>)
    ensures Adler(s) == (Sums(s).0 % 65521, Sums(s).1 % 65521)
  {
    if s != [] {
      var (a, b) := Sums(s[..|s| - 1]);
      var d := s[|s| - 1] as int;
      AdlerIsSums(s[..|s| - 1]);
      ReducedSum(a, d);
      ReducedSum(b, a + d);
    }
  }

  lemma ReducedSum(x: nat, y: nat)
    ensures (x % 65521 + y) % 65521 == (x + y) % 65521 == (x % 65521 + y % 65521) % 65521
  {
  }

  function Checksum(s: seq<Byte>): int {
    Adler(s).1 * 65536 + Adler(s).0
  }

  /** The checksum a frame carries: section 8.2 of RFC 1950 writes it as s2 * 65536 + s1, where s1 is 1
      plus the sum of the bytes and s2 the sum of all s1, both modulo 65521. */
  lemma ChecksumIsAdler32(s: seq<Byte>)
    ensures Checksum(s) == Sums(s).1 % 65521 * 65536 + Sums(s).0 % 65521
    ensures 0 <= Checksum(s) < 0x1_0000_0000
  {
    AdlerIsSums(s);
  }

  predicate ValidateChecksum(body: seq<Byte>)
    requires |body| >= CHECKSUM_LEN
  {
    var n := |body| - CHECKSUM_LEN;
    Decode(body[n..]) == Decode(Encode(Checksum(body[..n]), CHECKSUM_LEN))
  }

  function Parse<Msg>(c: Codec<Msg>, body: seq<Byte>): Parsed<Msg>
    requires |body| >= c.MinMessageLen()
  {
    if ValidateChecksum(body) then
      if body[..|c.tag|] == c.tag then
        match c.deserialize(body[|c.tag|..|body| - CHECKSUM_LEN])
        case Some(m) => Ok(m)
        case None => Bad(ParseError)
      else Bad(UnknownMessageType)
    else Bad(CheckSumError)
  }

  /** The checksum is valid exactly if the last four bytes are those an encoder would write. */
  lemma ValidIff(body: seq<Byte>)
    requires |body| >= CHECKSUM_LEN
    ensures var n := |body| - CHECKSUM_LEN;
            ValidateChecksum(body) <==> body[n..] == Encode(Checksum(body[..n]), CHECKSUM_LEN)
  {
    hide Checksum, Encode, Decode;
    var n := |body| - CHECKSUM_LEN;
    EncodeInvertsDecode(body[n..]);
    EncodeInvertsDecode(Encode(Checksum(body[..n]), CHECKSUM_LEN));
  }

  /** Which verdict each body gets: the checksum is looked at first, then the tag, then the payload. */
  lemma VerdictIff<Msg>(c: Codec<Msg>, body: seq<Byte>, m: Msg)
    requires |body| >= c.MinMessageLen()
    ensures var n := |body| - CHECKSUM_LEN; var payload := body[|c.tag|..n];
            var summed := body[n..] == Encode(Checksum(body[..n]), CHECKSUM_LEN);
            && (Parse(c, body) == Bad(CheckSumError) <==> !summed)
            && (Parse(c, body) == Bad(UnknownMessageType) <==> summed && !(c.tag <= body))
            && (Parse(c, body) == Bad(ParseError) <==> summed && c.tag <= body && c.deserialize(payload) == None)
            && (Parse(c, body) == Ok(m) <==> summed && c.tag <= body && c.deserialize(payload) == Some(m))
  {
    hide Checksum, Encode, Decode;
    ValidIff(body);
    hide ValidateChecksum;
    assert c.tag <= body <==> body[..|c.tag|] == c.tag;
  }

  function Body<Msg>(c: Codec<Msg>, m: Msg): seq<Byte> {
    var content := c.tag + c.serialize(m);
    content + Encode(Checksum(content), CHECKSUM_LEN)
  }

  /** What fillEmptyBuffer leaves in the buffer. */
  function Frame<Msg>(c: Codec<Msg>, m: Msg): seq<Byte> {
    Encode(|Body(c, m)|, HEADER_LEN) + Body(c, m)
  }

  // ---------- one call of onMessage ----------

  datatype Outcome<+Msg> = Outcome(delivered: seq<Msg>, error: Option<ErrorCode>, rest: seq<Byte>)

  /** What the front of the buffer allows: n is the length of a complete frame. */
  datatype Front<+Msg> = Incomplete | Stop(error: ErrorCode) | Skip(n: nat) | Take(n: nat, message: Msg)

  function LookAt<Msg>(c: Codec<Msg>, s: seq<Byte>): (f: Front<Msg>)
    ensures f.Skip? || f.Take? ==> HEADER_LEN <= f.n <= |s|
  {
    if |s| < c.MinMessageLen() + HEADER_LEN then Incomplete
    else
      var len := Decode(s[..HEADER_LEN]);
      if len > MAX_MESSAGE_LEN || len < c.MinMessageLen() then Stop(InvalidLength)
      else if |s| < HEADER_LEN + len then Incomplete
      else if !c.accepts(s[..HEADER_LEN + len]) then Skip(HEADER_LEN + len)
      else
        match Parse(c, s[HEADER_LEN..HEADER_LEN + len])
        case Ok(m) => Take(HEADER_LEN + len, m)
        case Bad(e) => Stop(e)
  }

  /** When onMessage waits, when it complains about the length, and how much it takes otherwise. */
  lemma FrontIff<Msg>(c: Codec<Msg>, s: seq<Byte>)
    ensures var f := LookAt(c, s); var short := |s| < c.MinMessageLen() + HEADER_LEN;
            var len := if |s| < HEADER_LEN then 0 else Decode(s[..HEADER_LEN]);
            var inRange := c.MinMessageLen() <= len <= MAX_MESSAGE_LEN;
            && (f.Incomplete? <==> short || (inRange && |s| < HEADER_LEN + len))
            && (f == Stop(InvalidLength) <==> !short && !inRange)
            && (f.Skip? || f.Take? ==> inRange && f.n == HEADER_LEN + len)
            && (f.Skip? <==> !short && inRange && HEADER_LEN + len <= |s| && !c.accepts(s[..HEADER_LEN + len]))
  {
    hide Decode, Encode, Checksum, ValidateChecksum;
  }

  /** Frames are taken off the front until one is incomplete or bad. */
  function Scan<Msg>(c: Codec<Msg>, s: seq<Byte>): Outcome<Msg>
    decreases |s|
  {
    match LookAt(c, s)
    case Incomplete => Outcome([], None, s)
    case Stop(e) => Outcome([], Some(e), s)
    case Skip(n) => Scan(c, s[n..])
    case Take(n, m) => Deliver([m], Scan(c, s[n..]))
  }

  function Deliver<Msg>(ms: seq<Msg>, o: Outcome<Msg>): Outcome<Msg> {
    o.(delivered := ms + o.delivered)
  }

  lemma ScanUnfold<Msg>(c: Codec<Msg>, s: seq<Byte>, done: seq<Msg>)
    ensures var f := LookAt(c, s);
            && (f.Incomplete? ==> Scan(c, s) == Outcome([], None, s))
            && (f.Stop? ==> Scan(c, s) == Outcome([], Some(f.error), s))
            && (f.Skip? ==> Scan(c, s) == Scan(c, s[f.n..]))
            && (f.Take? ==> Deliver(done, Scan(c, s)) == Deliver(done + [f.message], Scan(c, s[f.n..])))
  {
  }

  /** The branches of the loop, in its own terms. */
  lemma LookAtBranches<Msg>(c: Codec<Msg>, s: seq<Byte>, len: int)
    requires |s| >= HEADER_LEN && len == Decode(s[..HEADER_LEN])
    ensures var f := LookAt(c, s);
            if |s| < c.MinMessageLen() + HEADER_LEN then f.Incomplete?
            else if len > MAX_MESSAGE_LEN || len < c.MinMessageLen() then f == Stop(InvalidLength)
            else if |s| < HEADER_LEN + len then f.Incomplete?
            else if !c.accepts(s[..HEADER_LEN + len]) then f == Skip(HEADER_LEN + len)
            else
              var p := Parse(c, s[HEADER_LEN..HEADER_LEN + len]);
              f == if p.Ok? then Take(HEADER_LEN + len, p.message) else Stop(p.error)
  {
    hide Parse, Decode;
  }

  method OnMessage<Msg>(c: Codec<Msg>, buf: Buffer) returns (delivered: seq<Msg>, error: Option<ErrorCode>)
    requires buf.Valid()
    modifies buf
    ensures buf.Valid()
    ensures Outcome(delivered, error, buf.Contents()) == Scan(c, old(buf.Contents()))
  {
    hide Parse, Decode, Encode, Fits, Scan, LookAt, Deliver;
    DeliverNothing(Scan(c, buf.Contents()));
    delivered, error := [], None;
    while buf.ReadableBytes() >= c.MinMessageLen() + HEADER_LEN
      invariant buf.Valid() && error == None
      invariant Scan(c, old(buf.Contents())) == Deliver(delivered, Scan(c, buf.Contents()))
      decreases buf.ReadableBytes()
    {
      ghost var s := buf.Contents();
      ScanUnfold(c, s, delivered);
      var len := buf.PeekInt(HEADER_LEN);
      assert len == Decode(s[..HEADER_LEN]) by { DecodeInvertsEncode(len, HEADER_LEN); }
      LookAtBranches(c, s, len);
      if len > MAX_MESSAGE_LEN || len < c.MinMessageLen() {
        error := Some(InvalidLength);
        break;
      } else if buf.ReadableBytes() >= HEADER_LEN + len {
        if !c.accepts(buf.Contents()[..HEADER_LEN + len]) {
          buf.Retrieve(HEADER_LEN + len);
          continue;
        }
        match Parse(c, buf.Contents()[HEADER_LEN..HEADER_LEN + len]) {
          case Ok(m) =>
            delivered := delivered + [m];
            buf.Retrieve(HEADER_LEN + len);
          case Bad(e) =>
            error := Some(e);
            break;
        }
      } else {
        break;
      }
    }
    if error == None {
      TooShort(c, buf.Contents());
    }
    ScanUnfold(c, buf.Contents(), delivered);
    DeliverEnd(delivered, error, buf.Contents());
  }

  lemma DeliverEnd<Msg>(ms: seq<Msg>, error: Option<ErrorCode>, rest: seq<Byte>)
    ensures Deliver(ms, Outcome([], error, rest)) == Outcome(ms, error, rest)
  {
    assert ms + [] == ms;
  }

  lemma TooShort<Msg>(c: Codec<Msg>, s: seq<Byte>)
    ensures |s| < c.MinMessageLen() + HEADER_LEN ==> LookAt(c, s).Incomplete?
  {
    hide Parse, Decode;
  }

  method FillEmptyBuffer<Msg>(c: Codec<Msg>, buf: Buffer, m: Msg)
    requires buf.Valid() && buf.Contents() == [] && buf.PrependableBytes() >= HEADER_LEN
    modifies buf
    ensures buf.Valid() && buf.Contents() == Frame(c, m)
  {
    hide Checksum, Encode;
    buf.Append(c.tag);
    buf.Append(c.serialize(m));
    assert buf.Contents() == c.tag + c.serialize(m);
    var checkSum := Checksum(buf.Contents());
    buf.Append(Encode(checkSum, CHECKSUM_LEN));
    var len := buf.ReadableBytes();
    buf.Prepend(Encode(len, HEADER_LEN));
  }

  // ---------- chunking ----------

  /** The stream arriving in chunks: each is appended to what the previous call left. */
  function Feed<Msg>(c: Codec<Msg>, chunks: seq<seq<Byte>>): Outcome<Msg> {
    if chunks == [] then Outcome([], None, [])
    else
      var before := Feed(c, chunks[..|chunks| - 1]);
      Deliver(before.delivered, Scan(c, before.rest + chunks[|chunks| - 1]))
  }

  /** More bytes never change a decision about the front of the stream. */
  lemma LookAtAppend<Msg>(c: Codec<Msg>, a: seq<Byte>, b: seq<Byte>)
    requires !LookAt(c, a).Incomplete?
    ensures LookAt(c, a + b) == LookAt(c, a)
  {
    hide Parse, Decode;
    assert (a + b)[..HEADER_LEN] == a[..HEADER_LEN];
    var n := HEADER_LEN + Decode(a[..HEADER_LEN]);
    if HEADER_LEN <= n <= |a| {
      assert (a + b)[..n] == a[..n] && (a + b)[HEADER_LEN..n] == a[HEADER_LEN..n];
    }
  }

  lemma {:induction false} ScanAppend<Msg>(c: Codec<Msg>, a: seq<Byte>, b: seq<Byte>)
    ensures Scan(c, a + b) == Deliver(Scan(c, a).delivered, Scan(c, Scan(c, a).rest + b))
    decreases |a|
  {
    hide LookAt;
    var f := LookAt(c, a);
    if !f.Incomplete? {
      LookAtAppend(c, a, b);
      if f.Skip? || f.Take? {
        assert (a + b)[f.n..] == a[f.n..] + b;
        ScanAppend(c, a[f.n..], b);
      }
    }
  }

  /** Any chunking of a stream delivers the same messages in the same order, leaves the same bytes
      in the buffer and ends with the same verdict as the whole stream at once. */
  lemma {:induction false} ChunkingIsInvisible<Msg>(c: Codec<Msg>, chunks: seq<seq<Byte>>)
    requires chunks != []
    ensures Feed(c, chunks) == Scan(c, Concat(chunks))
  {
    hide Scan, LookAt;
    var n := |chunks| - 1;
    if n > 0 {
      ChunkingIsInvisible(c, chunks[..n]);
      ScanAppend(c, Concat(chunks[..n]), chunks[n]);
    } else {
      assert [] + chunks[0] == chunks[0] && chunks[..0] == [];
    }
  }

  // ---------- round trip ----------

  function Frames<Msg>(c: Codec<Msg>, ms: seq<Msg>): seq<Byte> {
    if ms == [] then [] else Frame(c, ms[0]) + Frames(c, ms[1..])
  }

  function Accepted<Msg>(c: Codec<Msg>, ms: seq<Msg>): seq<Msg> {
    if ms == [] then []
    else AcceptedOne(c, ms[0]) + Accepted(c, ms[1..])
  }

  lemma BodyParses<Msg(!new)>(c: Codec<Msg>, m: Msg)
    requires ParseInvertsSerialize(c)
    ensures |Body(c, m)| >= c.MinMessageLen() && Parse(c, Body(c, m)) == Ok(m)
  {
  }

  lemma HeaderReads(len: int)
    requires 0 <= len < 0x8000_0000
    ensures Decode(Encode(len, HEADER_LEN)) == len
  {
    assert Pow256(4) == 256 * Pow256(3) == 256 * 256 * Pow256(2) == 256 * 256 * 256 * Pow256(1);
    DecodeInvertsEncode(len, HEADER_LEN);
  }

  /** A frame at the front of a stream is taken off whole exactly when it is within the length
      limit; a longer one (that still fits the 32-bit header) stops the stream. */
  lemma FrameAtFront<Msg(!new)>(c: Codec<Msg>, m: Msg, s: seq<Byte>)
    requires ParseInvertsSerialize(c) && |Body(c, m)| < 0x8000_0000
    ensures LookAt(c, Frame(c, m) + s) ==
            if |Body(c, m)| > MAX_MESSAGE_LEN then Stop(InvalidLength)
            else if c.accepts(Frame(c, m)) then Take(|Frame(c, m)|, m)
            else Skip(|Frame(c, m)|)
  {
    hide Body, Parse, Decode, Encode;
    BodyParses(c, m);
    var body, t := Body(c, m), Frame(c, m) + s;
    HeaderReads(|body|);
    var n := HEADER_LEN + |body|;
    assert t[..HEADER_LEN] == Encode(|body|, HEADER_LEN) && t[HEADER_LEN..n] == body && t[..n] == Frame(c, m);
  }

  /** Conversely, what is delivered was framed: length, tag and checksum are those an encoder would
      have written around bytes that deserialize to the message. */
  lemma TakenFrameIsValid<Msg>(c: Codec<Msg>, s: seq<Byte>)
    requires LookAt(c, s).Take?
    ensures var f := LookAt(c, s); var payload := s[HEADER_LEN..f.n][|c.tag|..f.n - HEADER_LEN - CHECKSUM_LEN];
            && c.deserialize(payload) == Some(f.message)
            && s[HEADER_LEN..f.n] == c.tag + payload + Encode(Checksum(c.tag + payload), CHECKSUM_LEN)
            && s[..HEADER_LEN] == Encode(f.n - HEADER_LEN, HEADER_LEN)
            && c.accepts(s[..f.n])
  {
    hide Checksum, Encode, Decode;
    var f := LookAt(c, s);
    var body := s[HEADER_LEN..f.n];
    var n := |body| - CHECKSUM_LEN;
    assert body[..n] == body[..|c.tag|] + body[|c.tag|..n] && body == body[..n] + body[n..];
    EncodeInvertsDecode(s[..HEADER_LEN]);
    EncodeInvertsDecode(body[n..]);
    EncodeInvertsDecode(Encode(Checksum(body[..n]), CHECKSUM_LEN));
  }

  function AcceptedOne<Msg>(c: Codec<Msg>, m: Msg): seq<Msg> {
    if c.accepts(Frame(c, m)) then [m] else []
  }

  /** One frame within the limit is taken off, whatever follows it. */
  lemma FirstFrame<Msg(!new)>(c: Codec<Msg>, ms: seq<Msg>)
    requires ParseInvertsSerialize(c) && ms != [] && |Body(c, ms[0])| <= MAX_MESSAGE_LEN
    ensures Scan(c, Frames(c, ms)) == Deliver(AcceptedOne(c, ms[0]), Scan(c, Frames(c, ms[1..])))
  {
    hide Body, Frame, LookAt, Scan;
    var rest := Frames(c, ms[1..]);
    ScanUnfold(c, Frames(c, ms), []);
    assert (Frame(c, ms[0]) + rest)[|Frame(c, ms[0])|..] == rest;
    FrameAtFront(c, ms[0], rest);
    DeliverNothing(Scan(c, Frames(c, ms)));
    DeliverNothing(Scan(c, rest));
    assert [] + [ms[0]] == [ms[0]];
  }

  lemma DeliverNothing<Msg>(o: Outcome<Msg>)
    ensures Deliver([], o) == o
  {
    assert [] + o.delivered == o.delivered;
  }

  lemma DeliverTwice<Msg>(a: seq<Msg>, b: seq<Msg>, o: Outcome<Msg>)
    ensures Deliver(a, Deliver(b, o)) == Deliver(a + b, o)
  {
    assert a + (b + o.delivered) == a + b + o.delivered;
  }

  /** The frames before i are taken off one by one, whatever follows them. */
  lemma {:induction false} FramesUpTo<Msg(!new)>(c: Codec<Msg>, ms: seq<Msg>, i: nat)
    requires ParseInvertsSerialize(c) && i <= |ms|
    requires forall j :: 0 <= j < i ==> |Body(c, ms[j])| <= MAX_MESSAGE_LEN
    ensures Scan(c, Frames(c, ms)) == Deliver(Accepted(c, ms[..i]), Scan(c, Frames(c, ms[i..])))
    decreases i
  {
    hide Body, Frame, LookAt, Scan, Frames;
    if i == 0 {
      assert ms[0..] == ms && ms[..0] == [];
    } else {
      var tail := ms[1..];
      FirstFrame(c, ms);
      FramesUpTo(c, tail, i - 1);
      assert tail[..i - 1] == ms[..i][1..] && tail[i - 1..] == ms[i..];
      DeliverTwice(AcceptedOne(c, ms[0]), Accepted(c, tail[..i - 1]), Scan(c, Frames(c, ms[i..])));
      assert ms[..i][0] == ms[0];
    }
  }

  lemma FramesDecode<Msg(!new)>(c: Codec<Msg>, ms: seq<Msg>)
    requires ParseInvertsSerialize(c)
    requires forall i :: 0 <= i < |ms| ==> |Body(c, ms[i])| <= MAX_MESSAGE_LEN
    ensures Scan(c, Frames(c, ms)) == Outcome(Accepted(c, ms), None, [])
  {
    FramesUpTo(c, ms, |ms|);
    assert ms[..|ms|] == ms && ms[|ms|..] == [];
  }

  /** The first frame over the limit (that its 32-bit header can still announce) stops the stream: the
      messages before it are delivered, and it stays in the buffer with everything after it. */
  lemma OverlongFrameStops<Msg(!new)>(c: Codec<Msg>, ms: seq<Msg>, i: nat)
    requires ParseInvertsSerialize(c) && i < |ms|
    requires forall j :: 0 <= j < i ==> |Body(c, ms[j])| <= MAX_MESSAGE_LEN
    requires MAX_MESSAGE_LEN < |Body(c, ms[i])| < 0x8000_0000
    ensures Scan(c, Frames(c, ms)) == Outcome(Accepted(c, ms[..i]), Some(InvalidLength), Frames(c, ms[i..]))
  {
    hide Body, Frame, LookAt, Scan;
    FramesUpTo(c, ms, i);
    var rest := ms[i..];
    assert rest[0] == ms[i];
    FrameAtFront(c, rest[0], Frames(c, rest[1..]));
    ScanUnfold(c, Frames(c, rest), []);
  }

  /** What a peer encoded arrives, however TCP cut it up. */
  lemma EncodedMessagesArrive<Msg(!new)>(c: Codec<Msg>, ms: seq<Msg>, chunks: seq<seq<Byte>>)
    requires ParseInvertsSerialize(c)
    requires forall i :: 0 <= i < |ms| ==> |Body(c, ms[i])| <= MAX_MESSAGE_LEN
    requires chunks != [] && Concat(chunks) == Frames(c, ms)
    ensures Feed(c, chunks) == Outcome(Accepted(c, ms), None, [])
  {
    hide *;
    ChunkingIsInvisible(c, chunks);
    FramesDecode(c, ms);
  }
}
