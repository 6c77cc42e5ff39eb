/**
 gRPC length-prefixed messages: the framing written into DATA payloads (section 6.1 of RFC 7540)
 and the incremental reassembly, proved independent of how the stream was cut.
 */
module GrpcFraming {
  import opened Words

  /** What a message body decodes to; bodies that do not decode are skipped. */
  datatype Event<T> = Skip | Event(value: T)

  type Decoder<!T> = seq<Byte> -> Event<T>

  function BodyLen(buf: seq<Byte>): Word
    requires |buf| >= 5
  {
    LeWord(buf[4], buf[3], buf[2], buf[1])
  }

  /** The length compared with the buffer size: a 32-bit sum. */
  function FrameLen(buf: seq<Byte>): Word
    requires |buf| >= 5
  {
    (5 + BodyLen(buf)) % 0x1_0000_0000
  }

  /** A length for which the 32-bit sum wraps. */
  predicate Oversized(buf: seq<Byte>) {
    |buf| >= 5 && BodyLen(buf) > 0xFFFF_FFFA
  }

  /** Decoded messages, what is left of the stream, and whether an oversized length was met. */
  datatype Parsed<T> = Parsed(events: seq<T>, rest: seq<Byte>, broken: bool)

  function Delivered<T>(decode: Decoder<T>, compressed: bool, body: seq<Byte>): seq<T> {
    match decode(body)
    case Event(v) => if compressed then [] else [v]
    case Skip => []
  }

  /** A whole message stands at the front. */
  predicate Complete(buf: seq<Byte>) {
    |buf| >= 5 && !Oversized(buf) && |buf| >= 5 + BodyLen(buf)
  }

  /** One-shot parsing of a whole stream. */
  function ParseAll<T>(decode: Decoder<T>, buf: seq<Byte>): Parsed<T>
    decreases |buf|
  {
    if Oversized(buf) then Parsed([], buf, true)
    else if !Complete(buf) then Parsed([], buf, false)
    else
      var n := 5 + BodyLen(buf);
      var tail := ParseAll(decode, buf[n..]);
      tail.(events := Delivered(decode, buf[0] != 0, buf[5..n]) + tail.events)
  }

  /** Going on with more input; after an oversized length nothing is parsed any more. */
  function Continue<T>(decode: Decoder<T>, p: Parsed<T>, more: seq<Byte>): Parsed<T> {
    if p.broken then p.(rest := p.rest + more)
    else
      var q := ParseAll(decode, p.rest + more);
      q.(events := p.events + q.events)
  }

  // ----- the reader -----

  class Reader<T> {
    const decode: Decoder<T>
    var readBuf: seq<Byte>
    var events: seq<T>

    ghost function Seen(): Parsed<T>
      reads this
    {
      Parsed(events, readBuf, false)
    }

    constructor (decode: Decoder<T>)
      ensures this.decode == decode && Seen() == Parsed([], [], false)
    {
      this.decode := decode;
      readBuf, events := [], [];
    }

    /** The parsing loop, for a buffer in which no length makes the sum wrap. */
    method ParseMessages()
      requires !ParseAll(decode, readBuf).broken
      modifies this`readBuf, this`events
      ensures Seen() == Continue(decode, old(Seen()), [])
    {
      hide BodyLen, Delivered;
      ghost var was := readBuf;
      assert was + [] == was;
      assert [] + ParseAll(decode, was).events == ParseAll(decode, was).events;
      ghost var start := events;
      ghost var got: seq<T> := [];
      assert start + got == start;
      while |readBuf| >= 5
        invariant events == start + got
        invariant var q := ParseAll(decode, readBuf);
          ParseAll(decode, was) == q.(events := got + q.events)
        decreases |readBuf|
      {
        FrameLenExactIff(readBuf);
        var msgLen := ReadU32Be(readBuf[1..5]);
        assert msgLen == BodyLen(readBuf) by { BodyLenAt(readBuf); }
        if |readBuf| < (5 + msgLen) % 0x1_0000_0000 { break; }
        var n := 5 + msgLen;
        ghost var delivered := Delivered(decode, readBuf[0] != 0, readBuf[5..n]);
        Regroup(start, got, delivered, ParseAll(decode, readBuf[n..]).events);
        if readBuf[0] == 0 { Deliver(readBuf[5..n]); } else { DeliveredIs(decode, true, readBuf[5..n]); }
        assert events == start + got + delivered;
        got := got + delivered;
        readBuf := readBuf[n..];
      }
      assert got + [] == got;
    }

    /** Decode a body; queue the event if it decodes. */
    method Deliver(body: seq<Byte>)
      modifies this`events
      ensures events == old(events) + Delivered(decode, false, body)
    {
      match decode(body)
      case Event(v) => events := events + [v];
      case Skip => assert events + [] == events;
    }

    /** A DATA payload arrives. */
    method Feed(payload: seq<Byte>)
      requires !ParseAll(decode, readBuf + payload).broken
      modifies this`readBuf, this`events
      ensures Seen() == Continue(decode, old(Seen()), payload)
    {
      readBuf := readBuf + payload;
      assert readBuf + [] == readBuf;
      ParseMessages();
    }
  }

  /** Compressed messages are not delivered, others exactly when they decode. */
  lemma DeliveredIs<T>(decode: Decoder<T>, compressed: bool, body: seq<Byte>)
    ensures Delivered(decode, compressed, body)
         == if !compressed && decode(body).Event? then [decode(body).value] else []
  {
  }

  method ReadU32Be(b: seq<Byte>) returns (n: Word)
    requires |b| == 4
    ensures n == 0x100_0000 * Number(b[0]) + 0x1_0000 * Number(b[1]) + 0x100 * Number(b[2]) + Number(b[3])
  {
    var n0: nat, n1: nat, n2: nat, n3: nat := b[0], b[1], b[2], b[3];
    n := n0 * 0x100_0000 + n1 * 0x1_0000 + n2 * 0x100 + n3;
  }

  function Number(b: Byte): int {
    b
  }

  /** The length is big-endian. */
  lemma BodyLenAt(buf: seq<Byte>)
    requires |buf| >= 5
    ensures BodyLen(buf)
         == 0x100_0000 * Number(buf[1]) + 0x1_0000 * Number(buf[2]) + 0x100 * Number(buf[3]) + Number(buf[4])
  {
  }

  // ----- the 32-bit sum -----

  /** The sum is the frame length exactly for body lengths up to 2^32 - 6. */
  lemma FrameLenExactIff(buf: seq<Byte>)
    requires |buf| >= 5
    ensures FrameLen(buf) == 5 + BodyLen(buf) <==> !Oversized(buf)
  {
    hide BodyLen;
  }

  /** Above that the sum is at most 4, so the size guard lets any buffer of five bytes through. */
  lemma OversizedPassesGuard(buf: seq<Byte>)
    requires Oversized(buf)
    ensures FrameLen(buf) <= 4 && !(|buf| < FrameLen(buf))
  {
    hide BodyLen;
  }

  /** Five bytes announcing a body of 2^32 - 5 bytes pass the guard with no body there. */
  lemma WrappingHeader()
    ensures var buf := [0, 0xFF, 0xFF, 0xFF, 0xFB];
      Oversized(buf) && FrameLen(buf) == 0 && |buf| < 5 + BodyLen(buf)
  {
  }

  lemma Regroup<T>(a: seq<T>, b: seq<T>, c: seq<T>, d: seq<T>)
    ensures (a + b) + c == a + (b + c) && b + (c + d) == (b + c) + d
  {
  }

  // ----- chunking -----

  /** Parsing a prefix first and then continuing is parsing the whole. */
  lemma {:induction false} ParsePrefix<T>(decode: Decoder<T>, a: seq<Byte>, b: seq<Byte>)
    ensures ParseAll(decode, a + b) == Continue(decode, ParseAll(decode, a), b)
    decreases |a|
  {
    hide Delivered;
    if |a| >= 5 { SameFrame(a, b); }
    hide BodyLen;
    if Oversized(a) {
      assert ParseAll(decode, a + b) == Parsed([], a + b, true);
    } else if !Complete(a) {
      var q := ParseAll(decode, a + b);
      assert [] + q.events == q.events;
    } else {
      hide ParseAll;
      var n := 5 + BodyLen(a);
      assert (a + b)[n..] == a[n..] + b && (a + b)[5..n] == a[5..n];
      ParseComplete(decode, a);
      ParseComplete(decode, a + b);
      ParsePrefix(decode, a[n..], b);
      var tail := ParseAll(decode, a[n..]);
      var head := Delivered(decode, a[0] != 0, a[5..n]);
      if !tail.broken { Regroup([], head, tail.events, ParseAll(decode, tail.rest + b).events); }
    }
  }

  lemma ParseComplete<T>(decode: Decoder<T>, buf: seq<Byte>)
    requires Complete(buf)
    ensures var n := 5 + BodyLen(buf);
      var tail := ParseAll(decode, buf[n..]);
      ParseAll(decode, buf) == tail.(events := Delivered(decode, buf[0] != 0, buf[5..n]) + tail.events)
  {
    hide BodyLen, Delivered;
  }

  lemma SameFrame(a: seq<Byte>, b: seq<Byte>)
    requires |a| >= 5
    ensures |a + b| >= 5 && BodyLen(a + b) == BodyLen(a) && (a + b)[0] == a[0]
  {
  }

  function Concat(payloads: seq<seq<Byte>>): seq<Byte> {
    if payloads == [] then [] else Concat(payloads[..|payloads| - 1]) + payloads[|payloads| - 1]
  }

  /** A prefix of a stream without oversized lengths has none. */
  lemma PrefixUnbroken<T>(decode: Decoder<T>, a: seq<Byte>, b: seq<Byte>)
    requires !ParseAll(decode, a + b).broken
    ensures !ParseAll(decode, a).broken
  {
    ParsePrefix(decode, a, b);
    hide ParseAll;
  }

  lemma {:induction false} ConcatPrefix(payloads: seq<seq<Byte>>, i: nat) returns (rest: seq<Byte>)
    requires i <= |payloads|
    ensures Concat(payloads) == Concat(payloads[..i]) + rest
    decreases |payloads|
  {
    if i == |payloads| {
      assert payloads[..i] == payloads;
      rest := [];
    } else {
      var n := |payloads| - 1;
      assert payloads[..n][..i] == payloads[..i];
      rest := ConcatPrefix(payloads[..n], i);
      rest := rest + payloads[n];
    }
  }

  /** However the stream is cut into payloads, events and leftover are those of one-shot parsing. */
  method Receive<T>(decode: Decoder<T>, payloads: seq<seq<Byte>>) returns (r: Parsed<T>)
    requires !ParseAll(decode, Concat(payloads)).broken
    ensures r == ParseAll(decode, Concat(payloads))
  {
    var reader := new Reader(decode);
    var i := 0;
    Nothing(decode);
    assert payloads[..0] == [] && payloads[..|payloads|] == payloads;
    while i < |payloads|
      invariant 0 <= i <= |payloads| && reader.decode == decode
      invariant reader.Seen() == ParseAll(decode, Concat(payloads[..i]))
    {
      hide ParseAll;
      var rest := ConcatPrefix(payloads, i + 1);
      PrefixUnbroken(decode, Concat(payloads[..i + 1]), rest);
      assert payloads[..i + 1][..i] == payloads[..i];
      ParsePrefix(decode, Concat(payloads[..i]), payloads[i]);
      reader.Feed(payloads[i]);
      i := i + 1;
    }
    r := Parsed(reader.events, reader.readBuf, false);
  }

  lemma Nothing<T>(decode: Decoder<T>)
    ensures ParseAll(decode, []) == Parsed([], [], false)
  {
  }

  // ----- framing -----

  /** An uncompressed message behind its five-byte prefix. */
  function Frame(body: seq<Byte>): (f: seq<Byte>)
    requires |body| <= 0xFF_FFFF
    ensures |f| == 5 + |body|
  {
    [0, 0, |body| / 0x1_0000, |body| / 0x100 % 0x100, |body| % 0x100] + body
  }

  predicate Sendable(bodies: seq<seq<Byte>>) {
    forall i :: 0 <= i < |bodies| ==> |bodies[i]| <= 0xFF_FFFF
  }

  function Frames(bodies: seq<seq<Byte>>): seq<Byte>
    requires Sendable(bodies)
  {
    if bodies == [] then [] else Frame(bodies[0]) + Frames(bodies[1..])
  }

  function Decoded<T>(decode: Decoder<T>, bodies: seq<seq<Byte>>): seq<T> {
    if bodies == [] then [] else Delivered(decode, false, bodies[0]) + Decoded(decode, bodies[1..])
  }

  lemma FrameParts(body: seq<Byte>, rest: seq<Byte>)
    requires |body| <= 0xFF_FFFF
    ensures var s := Frame(body) + rest;
      && Complete(s) && !Oversized(s) && BodyLen(s) == |body| && s[0] == 0
      && s[5..5 + |body|] == body && s[5 + |body|..] == rest
  {
    var n := |body|;
    assert n / 0x1_0000 * 0x1_0000 + n / 0x100 % 0x100 * 0x100 + n % 0x100 == n by {
      assert n / 0x100 / 0x100 == n / 0x1_0000;
    }
    var s := Frame(body) + rest;
    assert s[1] == 0 && s[2] == n / 0x1_0000 && s[3] == n / 0x100 % 0x100 && s[4] == n % 0x100;
  }

  /** Framed messages come back in order, and what follows is parsed as if it stood alone. */
  lemma {:induction false} FramesComeBack<T>(decode: Decoder<T>, bodies: seq<seq<Byte>>, rest: seq<Byte>)
    requires Sendable(bodies)
    ensures var p := ParseAll(decode, rest);
      ParseAll(decode, Frames(bodies) + rest) == p.(events := Decoded(decode, bodies) + p.events)
    decreases |bodies|
  {
    hide BodyLen, Frame, Delivered;
    var p := ParseAll(decode, rest);
    if bodies == [] {
      assert Frames(bodies) + rest == rest;
      assert Decoded(decode, bodies) + p.events == p.events;
    } else {
      var tail := Frames(bodies[1..]) + rest;
      assert Frames(bodies) + rest == Frame(bodies[0]) + tail;
      FrameParts(bodies[0], tail);
      FramesComeBack(decode, bodies[1..], rest);
      Regroup([], Delivered(decode, false, bodies[0]), Decoded(decode, bodies[1..]), p.events);
    }
  }

  // ----- any messages of a peer -----

  /** A message as a peer may send it, compressed or not. */
  datatype Message = Message(compressed: bool, body: seq<Byte>)

  function MessageBytes(m: Message): (f: seq<Byte>)
    requires |m.body| <= 0xFFFF_FFFA
    ensures |f| == 5 + |m.body|
  {
    var n := |m.body|;
    [if m.compressed then 1 else 0, n / 0x100_0000, n / 0x1_0000 % 0x100, n / 0x100 % 0x100, n % 0x100] + m.body
  }

  predicate Framable(ms: seq<Message>) {
    forall i :: 0 <= i < |ms| ==> |ms[i].body| <= 0xFFFF_FFFA
  }

  function StreamOf(ms: seq<Message>): seq<Byte>
    requires Framable(ms)
  {
    if ms == [] then [] else MessageBytes(ms[0]) + StreamOf(ms[1..])
  }

  /** The values of the uncompressed messages that decode, in order. */
  function ValuesOf<T>(decode: Decoder<T>, ms: seq<Message>): seq<T> {
    if ms == [] then []
    else
      (if !ms[0].compressed && decode(ms[0].body).Event? then [decode(ms[0].body).value] else [])
      + ValuesOf(decode, ms[1..])
  }

  lemma MessageParts(m: Message, rest: seq<Byte>)
    requires |m.body| <= 0xFFFF_FFFA
    ensures var s := MessageBytes(m) + rest;
      && Complete(s) && !Oversized(s) && BodyLen(s) == |m.body| && (s[0] != 0) == m.compressed
      && s[5..5 + |m.body|] == m.body && s[5 + |m.body|..] == rest
  {
    var n := |m.body|;
    var s := MessageBytes(m) + rest;
    assert s[1] == n / 0x100_0000 && s[2] == n / 0x1_0000 % 0x100 && s[3] == n / 0x100 % 0x100 && s[4] == n % 0x100;
    FourBytes(n);
  }

  lemma FourBytes(n: nat)
    ensures n / 0x100_0000 * 0x100_0000 + n / 0x1_0000 % 0x100 * 0x1_0000 + n / 0x100 % 0x100 * 0x100 + n % 0x100 == n
  {
    var a, b, c := n / 0x100, n / 0x100 / 0x100, n / 0x100 / 0x100 / 0x100;
    assert n / 0x1_0000 == b && n / 0x100_0000 == c;
  }

  /** Of any messages, the uncompressed ones that decode are delivered, in order, before what follows them. */
  lemma {:induction false} MessagesComeBack<T>(decode: Decoder<T>, ms: seq<Message>, rest: seq<Byte>)
    requires Framable(ms)
    ensures var p := ParseAll(decode, rest);
      ParseAll(decode, StreamOf(ms) + rest) == p.(events := ValuesOf(decode, ms) + p.events)
    decreases |ms|
  {
    hide BodyLen, MessageBytes, Delivered;
    var p := ParseAll(decode, rest);
    if ms == [] {
      assert StreamOf(ms) + rest == rest;
      assert ValuesOf(decode, ms) + p.events == p.events;
    } else {
      var tail := StreamOf(ms[1..]) + rest;
      assert StreamOf(ms) + rest == MessageBytes(ms[0]) + tail;
      MessageParts(ms[0], tail);
      MessagesComeBack(decode, ms[1..], rest);
      DeliveredIs(decode, ms[0].compressed, ms[0].body);
      Regroup([], Delivered(decode, ms[0].compressed, ms[0].body), ValuesOf(decode, ms[1..]), p.events);
    }
  }
}
