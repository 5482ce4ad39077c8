/** Length-prefixed frames of text over a byte stream that arrives in arbitrary pieces. */
module Framing {
  import opened Names
  import opened Utf8

  const MAX_FRAME_SIZE: nat := 10 * 1024 * 1024
  const HEADER_SIZE: nat := 4

  // ---- the wire format ----

  /** `struct.pack("!I", n)` */
  function Pack(n: nat): (h: seq<Byte>)
    requires n < 0x1_0000_0000
    ensures |h| == HEADER_SIZE
  {
    [n / 0x100_0000, n / 0x1_0000 % 256, n / 256 % 256, n % 256]
  }

  /** `struct.unpack("!I", h)` */
  function Unpack(h: seq<Byte>): nat
    requires |h| == HEADER_SIZE
  {
    h[0] as int * 0x100_0000 + h[1] as int * 0x1_0000 + h[2] as int * 256 + h[3] as int
  }

  lemma PackRoundTrip(n: nat, h: seq<Byte>)
    requires n < 0x1_0000_0000 && |h| == HEADER_SIZE
    ensures Unpack(Pack(n)) == n && Unpack(h) < 0x1_0000_0000 && Pack(Unpack(h)) == h
  {
    UnpackPacked(n);
    PackUnpacked(h);
  }

  lemma UnpackPacked(n: nat)
    requires n < 0x1_0000_0000
    ensures Unpack(Pack(n)) == n
  {
    assert n / 0x1_0000 == n / 0x100_0000 * 256 + n / 0x1_0000 % 256;
    assert n / 256 == n / 0x1_0000 * 256 + n / 256 % 256;
  }

  lemma PackUnpacked(h: seq<Byte>)
    requires |h| == HEADER_SIZE
    ensures Unpack(h) < 0x1_0000_0000 && Pack(Unpack(h)) == h
  {
    var m := Unpack(h);
    assert m / 256 == h[0] as int * 0x1_0000 + h[1] as int * 256 + h[2] as int;
    assert m / 0x1_0000 == h[0] as int * 256 + h[1] as int;
    assert m / 0x100_0000 == h[0] as int;
  }

  /** The length is written big-endian: one more byte at the end moves the others up, and the last is what is left. */
  lemma PackIsBigEndian(n: nat, b: Byte)
    requires n < 0x100_0000
    ensures Pack(b as int) == [0, 0, 0, b]
    ensures Pack(n * 256 + b as int) == Pack(n)[1..] + [b]
  {
    var m := n * 256 + b as int;
    assert m / 256 == n && m % 256 == b as int;
    assert m / 0x1_0000 == n / 256;
    assert m / 0x100_0000 == n / 0x1_0000 && n / 0x1_0000 < 256;
  }

  predicate Sendable(text: Text) { 0 < |Encode(text)| <= MAX_FRAME_SIZE }

  function Frame(text: Text): seq<Byte>
    requires Sendable(text)
  {
    Pack(|Encode(text)|) + Encode(text)
  }

  function FrameAll(texts: seq<Text>): seq<Byte>
    requires forall t | t in texts :: Sendable(t)
  {
    if texts == [] then [] else Frame(texts[0]) + FrameAll(texts[1..])
  }

  // ---- reading it back ----

  /** What reading one frame off a complete stream gives: its text, or no frame; and how much was consumed. */
  datatype Parsed = Parsed(text: Option<Text>, consumed: nat)

  function Parse(bytes: seq<Byte>): (r: Parsed)
    ensures r.consumed <= |bytes|
  {
    if |bytes| < HEADER_SIZE then Parsed(None, |bytes|)
    else
      var length := Unpack(bytes[..HEADER_SIZE]);
      if length == 0 || length > MAX_FRAME_SIZE then Parsed(None, HEADER_SIZE)
      else if |bytes| < HEADER_SIZE + length then Parsed(None, |bytes|)
      else Parsed(Decode(bytes[HEADER_SIZE..HEADER_SIZE + length]), HEADER_SIZE + length)
  }

  function ParseAll(bytes: seq<Byte>): (r: (seq<Text>, seq<Byte>))
    decreases |bytes|
  {
    var p := Parse(bytes);
    if p.text.None? then ([], bytes[p.consumed..])
    else
      var rest := ParseAll(bytes[p.consumed..]);
      ([p.text.value] + rest.0, rest.1)
  }

  /** A frame is read back whole and not one byte further, whatever follows it. */
  lemma FrameRoundTrip(text: Text, rest: seq<Byte>)
    requires Sendable(text)
    ensures Parse(Frame(text) + rest) == Parsed(Some(text), |Frame(text)|)
    ensures (Frame(text) + rest)[|Frame(text)|..] == rest
  {
    hide Decode, Encode;
    var payload := Encode(text);
    var bytes := Frame(text) + rest;
    PackRoundTrip(|payload|, Pack(|payload|));
    TextRoundTrip(text);
    assert bytes[..HEADER_SIZE] == Pack(|payload|);
    assert bytes[HEADER_SIZE..HEADER_SIZE + |payload|] == payload;
  }

  lemma ParseAllStep(text: Text, rest: seq<Byte>)
    requires Sendable(text)
    ensures ParseAll(Frame(text) + rest) == ([text] + ParseAll(rest).0, ParseAll(rest).1)
  {
    hide Parse, Frame, Sendable;
    FrameRoundTrip(text, rest);
  }

  /** A text that is read is one a sender may send, and the bytes consumed are exactly its frame. */
  lemma ParseSound(bytes: seq<Byte>)
    requires Parse(bytes).text.Some?
    ensures Sendable(Parse(bytes).text.value)
    ensures bytes[..Parse(bytes).consumed] == Frame(Parse(bytes).text.value)
  {
    hide Decode, Encode;
    PackRoundTrip(0, bytes[..HEADER_SIZE]);
    var p := Parse(bytes);
    var payload := bytes[HEADER_SIZE..p.consumed];
    BytesRoundTrip(payload);
    assert bytes[..p.consumed] == bytes[..HEADER_SIZE] + payload;
  }

  /** Any sequence of frames is read back as exactly the texts sent, up to whatever follows. */
  lemma {:induction false} StreamRoundTrip(texts: seq<Text>, tail: seq<Byte>, stream: seq<Byte>)
    requires (forall t | t in texts :: Sendable(t)) && stream == FrameAll(texts) + tail
    ensures ParseAll(stream) == (texts + ParseAll(tail).0, ParseAll(tail).1)
  {
    hide Sendable, Frame, ParseAll;
    if texts == [] {
      assert stream == tail && texts + ParseAll(tail).0 == ParseAll(tail).0;
    } else {
      var t, more := texts[0], texts[1..];
      var rest := FrameAll(more) + tail;
      StreamRoundTrip(more, tail, rest);
      assert stream == Frame(t) + rest;
      ParseAllStep(t, rest);
      ConsAppend(texts, ParseAll(tail).0);
    }
  }

  lemma ConsAppend<T>(s: seq<T>, t: seq<T>)
    requires s != []
    ensures [s[0]] + (s[1..] + t) == s + t
  {}

  /** No two different sequences of texts share an encoding. */
  lemma FramingUnambiguous(ps: seq<Text>, qs: seq<Text>)
    requires (forall p | p in ps :: Sendable(p)) && (forall q | q in qs :: Sendable(q))
    requires FrameAll(ps) == FrameAll(qs)
    ensures ps == qs
  {
    StreamRoundTrip(ps, [], FrameAll(ps) + []);
    StreamRoundTrip(qs, [], FrameAll(qs) + []);
    assert ps + [] == ps && qs + [] == qs;
  }

  /** A length outside 1 to 10 MiB ends the reading with only the header consumed. */
  lemma BadLengthStops(bytes: seq<Byte>)
    requires |bytes| >= HEADER_SIZE
    requires Unpack(bytes[..HEADER_SIZE]) == 0 || Unpack(bytes[..HEADER_SIZE]) > 10_485_760
    ensures ParseAll(bytes) == ([], bytes[HEADER_SIZE..])
  {}

  /** A whole payload that is the encoding of no text ends the reading, consumed. */
  lemma UndecodableStops(bytes: seq<Byte>, payload: seq<Byte>, rest: seq<Byte>)
    requires 0 < |payload| <= MAX_FRAME_SIZE && bytes == Pack(|payload|) + payload + rest
    ensures ParseAll(bytes) == ([], rest) || exists t: Text :: payload == Encode(t)
    ensures ParseAll(bytes).0 == [] <==> !exists t: Text :: payload == Encode(t)
  {
    hide Decode, Encode;
    PackRoundTrip(|payload|, Pack(|payload|));
    assert bytes[..HEADER_SIZE] == Pack(|payload|);
    assert bytes[HEADER_SIZE..HEADER_SIZE + |payload|] == payload;
    assert bytes[HEADER_SIZE + |payload|..] == rest;
    if Decode(payload).Some? { BytesRoundTrip(payload); }
    if t: Text :| payload == Encode(t) { TextRoundTrip(t); }
  }

  // ---- the receiver ----

  datatype Received = Data(bytes: seq<Byte>) | TimedOut | Failed

  /** A connected socket: the bytes still to be delivered, how many more reads may time out, and whether
      reads may fail or the session's lease or idle limit may end. */
  class Connection {
    var pending: seq<Byte>
    var patience: nat
    const faulty: bool

    constructor (bytes: seq<Byte>, patience: nat, faulty: bool)
      ensures pending == bytes && this.patience == patience && this.faulty == faulty
    {
      pending := bytes;
      this.patience, this.faulty := patience, faulty;
    }

    /** `recv(k)`: some non-empty part of what is next, nothing at end of stream, a timeout or a failure. */
    method Recv(k: nat) returns (r: Received)
      requires k > 0
      modifies this
      ensures match r
        case Data(bytes) =>
          && bytes + pending == old(pending) && |bytes| <= k && patience == old(patience)
          && (bytes == [] <==> old(pending) == [])
        case TimedOut => pending == old(pending) && patience < old(patience)
        case Failed => pending == old(pending) && faulty
    {
      var choice: int := *;
      if choice == 0 && patience > 0 {
        patience := patience - 1;
        return TimedOut;
      }
      if choice == 1 && faulty { return Failed; }
      if pending == [] { return Data([]); }
      var n: int := *;
      n := if n < 1 then 1 else if n > k then k else n;
      n := if n > |pending| then |pending| else n;
      r := Data(pending[..n]);
      pending := pending[n..];
    }

    /** The lease or idle check made before every read. */
    method Expired() returns (b: bool)
      ensures b ==> faulty
    {
      var choice: bool := *;
      return choice && faulty;
    }
  }

  /** How much of `before` is gone when `after` is left of it. */
  ghost predicate Consumed(before: seq<Byte>, after: seq<Byte>, n: nat) {
    n <= |before| && after == before[n..]
  }

  lemma Taken(before: seq<Byte>, taken: seq<Byte>, after: seq<Byte>)
    requires taken + after == before
    ensures Consumed(before, after, |taken|)
  {}

  lemma Joined(a: seq<Byte>, b: seq<Byte>, c: seq<Byte>)
    ensures a + b + c == a + (b + c)
  {}

  /** `_recv_exact`: collect exactly n bytes, piece by piece. */
  method RecvExact(c: Connection, n: nat) returns (r: Option<seq<Byte>>)
    modifies c
    ensures exists k: nat :: k <= n && Consumed(old(c.pending), c.pending, k)
    ensures r.Some? ==> |r.value| == n && r.value + c.pending == old(c.pending)
    ensures !c.faulty ==> (r.Some? <==> n <= |old(c.pending)|) && (r.None? ==> c.pending == [])
  {
    var buf: seq<Byte> := [];
    ghost var stream := c.pending;
    Taken(stream, [], c.pending);
    hide Consumed;
    while |buf| < n
      invariant |buf| <= n && buf + c.pending == stream && Consumed(stream, c.pending, |buf|)
      decreases n - |buf|, c.patience
    {
      ghost var before := c.pending;
      var expired := c.Expired();
      if expired { return None; }
      var chunk := c.Recv(n - |buf|);
      match chunk {
        case TimedOut =>
          expired := c.Expired();
          if expired { return None; }
        case Failed => return None;
        case Data(bytes) =>
          if bytes == [] { return None; }
          Joined(buf, bytes, c.pending);
          buf := buf + bytes;
          Taken(stream, buf, c.pending);
      }
    }
    return Some(buf);
  }

  lemma TakenTwice(before: seq<Byte>, between: seq<Byte>, after: seq<Byte>, m: nat, n: nat)
    requires Consumed(before, between, m) && Consumed(between, after, n)
    ensures Consumed(before, after, m + n)
  {}

  lemma AllTaken(stream: seq<Byte>)
    ensures Consumed(stream, [], |stream|)
  {}

  lemma TakenAtMost(before: seq<Byte>, after: seq<Byte>, n: nat)
    requires Consumed(before, after, n)
    ensures n <= |before|
  {}

  lemma ParseTakes(stream: seq<Byte>)
    ensures Parse(stream).consumed >= if |stream| < HEADER_SIZE then |stream| else HEADER_SIZE
  {}

  /** What there is to read when the stream ends early, begins with a header, or holds a whole frame. */
  lemma ParseShort(stream: seq<Byte>)
    requires |stream| < HEADER_SIZE
    ensures Parse(stream) == Parsed(None, |stream|)
  {}

  lemma ParseHeader(stream: seq<Byte>, header: seq<Byte>, rest: seq<Byte>)
    requires |header| == HEADER_SIZE && header + rest == stream
    ensures Consumed(stream, rest, HEADER_SIZE) && HEADER_SIZE <= Parse(stream).consumed
    ensures var length := Unpack(header);
      if length == 0 || length > MAX_FRAME_SIZE then Parse(stream) == Parsed(None, HEADER_SIZE)
      else if |rest| < length then Parse(stream) == Parsed(None, |stream|)
      else Parse(stream).consumed == HEADER_SIZE + length
  {
    assert stream[..HEADER_SIZE] == header;
  }

  lemma ParseWhole(stream: seq<Byte>, header: seq<Byte>, data: seq<Byte>, rest: seq<Byte>)
    requires |header| == HEADER_SIZE && header + (data + rest) == stream && |data| == Unpack(header)
    requires 0 < |data| <= MAX_FRAME_SIZE
    ensures Parse(stream) == Parsed(Decode(data), HEADER_SIZE + |data|) && Consumed(stream, rest, HEADER_SIZE + |data|)
  {
    assert stream[..HEADER_SIZE] == header && stream[HEADER_SIZE..HEADER_SIZE + |data|] == data;
  }

  /** `_recv_frame`: however the bytes arrive, a text received is that of the next frame of the stream and nothing
      beyond it is ever consumed; on a sound connection it is received whenever it is there. */
  method RecvFrame(c: Connection) returns (r: Option<Text>)
    modifies c
    ensures exists k: nat :: k <= Parse(old(c.pending)).consumed && Consumed(old(c.pending), c.pending, k)
    ensures r.Some? || !c.faulty ==> r == Parse(old(c.pending)).text &&
                                     Consumed(old(c.pending), c.pending, Parse(old(c.pending)).consumed)
  {
    hide Parse, Decode, Unpack, Consumed;
    ghost var stream := c.pending;
    var header := RecvExact(c, HEADER_SIZE);
    if header.None? {
      ghost var n: nat :| n <= HEADER_SIZE && Consumed(stream, c.pending, n);
      TakenAtMost(stream, c.pending, n);
      ParseTakes(stream);
      AllTaken(stream);
      if !c.faulty { ParseShort(stream); }
      return None;
    }
    ghost var rest := c.pending;
    ParseHeader(stream, header.value, rest);
    var length := Unpack(header.value);
    if length <= 0 || length > MAX_FRAME_SIZE { return None; }
    var data := RecvExact(c, length);
    ghost var k: nat :| k <= length && Consumed(rest, c.pending, k);
    TakenTwice(stream, rest, c.pending, HEADER_SIZE, k);
    if data.None? {
      TakenAtMost(rest, c.pending, k);
      AllTaken(stream);
      return None;
    }
    ParseWhole(stream, header.value, data.value, c.pending);
    return Decode(data.value);
  }

  /** The receive loop: read frames until there is none. */
  method RecvAll(c: Connection) returns (frames: seq<Text>)
    modifies c
    ensures frames <= ParseAll(old(c.pending)).0
    ensures !c.faulty ==> (frames, c.pending) == ParseAll(old(c.pending))
  {
    hide Parse;
    frames := [];
    ghost var all := ParseAll(c.pending);
    assert [] + all.0 == all.0;
    while true
      invariant all == (frames + ParseAll(c.pending).0, ParseAll(c.pending).1)
      decreases |c.pending|
    {
      var frame := RecvFrame(c);
      if frame.None? {
        assert frames + [] == frames;
        return;
      }
      assert frames + ([frame.value] + ParseAll(c.pending).0) == frames + [frame.value] + ParseAll(c.pending).0;
      frames := frames + [frame.value];
    }
  }

  /** End to end: what a sequence of sends puts on a sound stream is received text for text,
      however the stream is cut into reads. */
  method Deliver(texts: seq<Text>, tail: seq<Byte>, patience: nat) returns (frames: seq<Text>, c: Connection)
    requires forall t | t in texts :: Sendable(t)
    ensures frames == texts + ParseAll(tail).0 && c.pending == ParseAll(tail).1
  {
    c := new Connection(FrameAll(texts) + tail, patience, false);
    StreamRoundTrip(texts, tail, c.pending);
    frames := RecvAll(c);
  }

  // ---- the sender ----

  class Wire {
    var bytes: seq<Byte>

    /** `_send_frame`: one frame is appended, or a text of the wrong size is refused untouched. */
    method SendFrame(text: Text) returns (raised: bool)
      modifies this
      ensures raised <==> !Sendable(text)
      ensures raised <==> text == [] || |Encode(text)| > 10_485_760
      ensures bytes == if raised then old(bytes) else old(bytes) + Frame(text)
    {
      var payload := Encode(text);
      if |payload| == 0 || |payload| > MAX_FRAME_SIZE { return true; }
      bytes := bytes + (Pack(|payload|) + payload);
      return false;
    }
  }
}
