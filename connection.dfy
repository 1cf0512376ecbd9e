/**
 * The length-prefixed message framing of a workspace socket connection: a
 * frame is a 4-byte big-endian length followed by that many bytes of JSON.
 * JSON encoding and decoding are opaque functions given to the connection;
 * emitted events are recorded in order, and so are the chunks written to
 * the socket.
 */
module Connection {

  import opened Wrappers
  import opened Strings

  type Byte = x: int | 0 <= x < 256

  /** The JSON values exchanged over the connection. */
  datatype Json =
    | JNull
    | JBool(b: bool)
    | JInt(i: int)
    | JStr(s: String)
    | JList(items: seq<Json>)
    | JObject(fields: seq<(String, Json)>)

  /** An event emitted by the connection: a decoded message, or a payload that is not valid JSON. */
  datatype Event = Message(value: Json) | MessageError

  /** The reading state: the bytes gathered so far and, once a header was read, how many body bytes are still due. */
  datatype FrameState = FrameState(payload: seq<Byte>, toRead: Option<nat>)

  const Idle := FrameState([], None)

  const Two32: nat := 0x1_0000_0000

  /** `pack('N', n)`: the low 32 bits of `n`, most significant byte first. */
  function Be32(n: nat): (r: seq<Byte>)
    ensures |r| == 4
  {
    var m := n % Two32;
    [m / 0x100_0000, (m / 0x1_0000) % 256, (m / 0x100) % 256, m % 256]
  }

  /** `unpack('N', b)[1]`: the unsigned big-endian value of four bytes. */
  function Be32Value(b: seq<Byte>): (r: nat)
    requires |b| == 4
    ensures r < Two32
  {
    ((b[0] as int * 256 + b[1]) * 256 + b[2]) * 256 + b[3]
  }

  lemma Be32RoundTrip(n: nat)
    requires n < Two32
    ensures Be32Value(Be32(n)) == n
  {
    var b := Be32(n);
    var q1, q2, q3 := n / 0x100, n / 0x1_0000, n / 0x100_0000;
    assert n % Two32 == n;
    DivBy256(n, 1);
    DivBy256(n, 0x100);
    DivBy256(n, 0x1_0000);
    assert b == [q3, q2 % 256, q1 % 256, n % 256];
    assert b[0] as int * 256 + b[1] == q2;
    assert (b[0] as int * 256 + b[1]) * 256 + b[2] == q1;
  }

  /** Dividing by `d` and then by 256 is dividing by `d * 256`, and the remainder is the low byte. */
  lemma DivBy256(n: nat, d: nat)
    requires d == 1 || d == 0x100 || d == 0x1_0000
    ensures (n / d) == (n / d / 256) * 256 + (n / d) % 256
    ensures n / d / 256 == n / (d * 256)
  {
  }

  /** What `send` writes for a JSON text: its length header, then the text. */
  function Frame(body: seq<Byte>): (r: seq<Byte>)
    ensures |r| == |body| + 4 && r[4..] == body
  {
    Be32(|body|) + body
  }

  function Emit(decode: seq<Byte> -> Option<Json>, payload: seq<Byte>): Event {
    match decode(payload)
    case Some(j) => Message(j)
    case None => MessageError
  }

  /**
   * `handleData` as a function of the state and the chunk received: the new
   * state and the events emitted. When a chunk runs past the end of a body,
   * the cut-off part of the chunk that completed the body is fed again, not
   * the data that followed it.
   */
  function Feed(decode: seq<Byte> -> Option<Json>, st: FrameState, data: seq<Byte>): (FrameState, seq<Event>)
    decreases |st.payload| + |data|
  {
    match st.toRead
    case None =>
      var p := st.payload + data;
      if |p| < 4 then (FrameState(p, None), [])
      else Feed(decode, FrameState([], Some(Be32Value(p[..4]))), p[4..])
    case Some(n) =>
      if |data| > n then
        var cut := data[..n];
        var next := Feed(decode, Idle, cut);
        (next.0, [Emit(decode, st.payload + cut)] + next.1)
      else if |data| == n then (Idle, [Emit(decode, st.payload + data)])
      else (FrameState(st.payload + data, Some(n - |data|)), [])
  }

  /** Feeding the chunks one after the other. */
  function FeedAll(decode: seq<Byte> -> Option<Json>, st: FrameState, chunks: seq<seq<Byte>>): (FrameState, seq<Event>)
    decreases chunks
  {
    if chunks == [] then (st, [])
    else
      var first := Feed(decode, st, chunks[0]);
      var rest := FeedAll(decode, first.0, chunks[1..]);
      (rest.0, first.1 + rest.1)
  }

  function Concat(chunks: seq<seq<Byte>>): seq<Byte> {
    if chunks == [] then [] else chunks[0] + Concat(chunks[1..])
  }

  /** The state after the first `k` bytes of the frame of `body` have arrived. */
  function PrefixState(body: seq<Byte>, k: nat): FrameState
    requires k <= |body| + 4
  {
    if k < 4 then FrameState(Frame(body)[..k], None)
    else if k < |body| + 4 then FrameState(body[..k - 4], Some(|body| - (k - 4)))
    else Idle
  }

  lemma SliceJoin(body: seq<Byte>, j: nat, c: seq<Byte>)
    requires j + |c| <= |body| && c == body[j..j + |c|]
    ensures body[..j] + c == body[..j + |c|]
  {
    forall k | 0 <= k < j + |c| ensures (body[..j] + c)[k] == body[k] {
      if k >= j {
        assert c[k - j] == body[k];
      }
    }
  }

  /** Body bytes that do not run past the end of the body are stored, or complete it. */
  lemma FeedBody(decode: seq<Byte> -> Option<Json>, body: seq<Byte>, j: nat, c: seq<Byte>)
    requires j + |c| <= |body| && c == body[j..j + |c|]
    ensures Feed(decode, FrameState(body[..j], Some(|body| - j)), c) ==
      if j + |c| == |body| then (Idle, [Emit(decode, body)])
      else (FrameState(body[..j + |c|], Some(|body| - (j + |c|))), [])
  {
    var n := |body| - j;
    assert !(|c| > n);
    SliceJoin(body, j, c);
    if |c| == n {
      assert body[..j + |c|] == body;
      assert Feed(decode, FrameState(body[..j], Some(n)), c) == (Idle, [Emit(decode, body[..j] + c)]);
    } else {
      assert Feed(decode, FrameState(body[..j], Some(n)), c) == (FrameState(body[..j] + c, Some(n - |c|)), []);
    }
  }

  lemma FrameBodySlice(body: seq<Byte>, k: nat, c: seq<Byte>)
    requires 4 <= k && k + |c| <= |body| + 4 && c == Frame(body)[k..k + |c|]
    ensures c == body[k - 4..k - 4 + |c|]
  {
    var f := Frame(body);
    forall i | 0 <= i < |c| ensures c[i] == body[k - 4 + i] {
      assert c[i] == f[k + i] == f[4..][k - 4 + i];
    }
  }

  /** Feeding the next bytes of a frame moves the state along the frame; the last one emits its message. */
  lemma FeedWithin(decode: seq<Byte> -> Option<Json>, body: seq<Byte>, k: nat, c: seq<Byte>)
    requires |body| < Two32
    requires k + |c| <= |body| + 4 && c == Frame(body)[k..k + |c|]
    ensures Feed(decode, PrefixState(body, k), c) ==
      (PrefixState(body, k + |c|), if k < |body| + 4 && k + |c| == |body| + 4 then [Emit(decode, body)] else [])
  {
    if k < 4 {
      FeedHeader(decode, body, k, c);
    } else if k < |body| + 4 {
      FrameBodySlice(body, k, c);
      FeedBody(decode, body, k - 4, c);
    }
  }

  /** Bytes that arrive while the header is incomplete: once four are there, the rest is read as body. */
  lemma FeedHeader(decode: seq<Byte> -> Option<Json>, body: seq<Byte>, k: nat, c: seq<Byte>)
    requires |body| < Two32 && k < 4
    requires k + |c| <= |body| + 4 && c == Frame(body)[k..k + |c|]
    ensures Feed(decode, PrefixState(body, k), c) ==
      (PrefixState(body, k + |c|), if k + |c| == |body| + 4 then [Emit(decode, body)] else [])
  {
    var f := Frame(body);
    var p := f[..k + |c|];
    SliceJoin(f, k, c);
    assert PrefixState(body, k) == FrameState(f[..k], None);
    FeedNoHeader(decode, f[..k], c);
    if k + |c| >= 4 {
      FeedNoHeader(decode, [], p);
      assert [] + p == p;
      HeaderComplete(decode, body, p);
    }
  }

  /** Without a header, the bytes are gathered until there are four of them; the rest is read as body. */
  lemma FeedNoHeader(decode: seq<Byte> -> Option<Json>, payload: seq<Byte>, data: seq<Byte>)
    ensures var p := payload + data;
      Feed(decode, FrameState(payload, None), data) ==
        if |p| < 4 then (FrameState(p, None), []) else Feed(decode, FrameState([], Some(Be32Value(p[..4]))), p[4..])
  {
  }

  /** Once the four header bytes are in, the length is decoded and the bytes after it start the body. */
  lemma HeaderComplete(decode: seq<Byte> -> Option<Json>, body: seq<Byte>, p: seq<Byte>)
    requires |body| < Two32
    requires 4 <= |p| <= |body| + 4 && p == Frame(body)[..|p|]
    ensures Feed(decode, FrameState([], None), p) ==
      (PrefixState(body, |p|), if |p| == |body| + 4 then [Emit(decode, body)] else [])
  {
    HeaderRead(body, p);
    BodyAfterHeader(decode, body, p);
    PrefixStateInBody(body, |p|);
  }

  /** The first four bytes of a frame decode to the body's length; the bytes after them are the body's. */
  lemma HeaderRead(body: seq<Byte>, p: seq<Byte>)
    requires |body| < Two32
    requires 4 <= |p| <= |body| + 4 && p == Frame(body)[..|p|]
    ensures Be32Value(p[..4]) == |body| && p[4..] == body[..|p| - 4]
  {
    assert p[..4] == Be32(|body|);
    Be32RoundTrip(|body|);
  }

  lemma BodyAfterHeader(decode: seq<Byte> -> Option<Json>, body: seq<Byte>, p: seq<Byte>)
    requires 4 <= |p| <= |body| + 4
    requires Be32Value(p[..4]) == |body| && p[4..] == body[..|p| - 4]
    ensures Feed(decode, FrameState([], None), p) ==
      if |p| == |body| + 4 then (Idle, [Emit(decode, body)])
      else (FrameState(body[..|p| - 4], Some(|body| - (|p| - 4))), [])
  {
    var rest := body[..|p| - 4];
    assert body[..0] == [] && [] + p == p;
    assert Feed(decode, FrameState([], None), p) == Feed(decode, FrameState(body[..0], Some(|body| - 0)), rest);
    FeedBody(decode, body, 0, rest);
  }

  /** Past the header, the state holds the body bytes read so far and counts the ones still due. */
  lemma PrefixStateInBody(body: seq<Byte>, k: nat)
    requires 4 <= k <= |body| + 4
    ensures PrefixState(body, k) ==
      if k == |body| + 4 then Idle else FrameState(body[..k - 4], Some(|body| - (k - 4)))
  {
  }

  /** However a frame is cut into chunks, feeding them yields its one message and leaves the reader idle. */
  lemma {:induction false} ChunkedFrame(decode: seq<Byte> -> Option<Json>, body: seq<Byte>, k: nat,
                                        chunks: seq<seq<Byte>>)
    requires |body| < Two32 && k <= |body| + 4
    requires Concat(chunks) == Frame(body)[k..]
    ensures FeedAll(decode, PrefixState(body, k), chunks) ==
      (Idle, if k < |body| + 4 then [Emit(decode, body)] else [])
    decreases chunks
  {
    if chunks != [] {
      var c := chunks[0];
      assert Frame(body)[k..] == c + Concat(chunks[1..]);
      assert Frame(body)[k..][..|c|] == c;
      assert Frame(body)[k..][..|c|] == Frame(body)[k..k + |c|];
      assert Concat(chunks[1..]) == Frame(body)[k + |c|..];
      FeedWithin(decode, body, k, c);
      ChunkedFrame(decode, body, k + |c|, chunks[1..]);
      var first := Feed(decode, PrefixState(body, k), c);
      var rest := FeedAll(decode, first.0, chunks[1..]);
      assert FeedAll(decode, PrefixState(body, k), chunks) == (rest.0, first.1 + rest.1);
      if k < |body| + 4 && k + |c| == |body| + 4 {
        assert first.1 == [Emit(decode, body)] && rest.1 == [];
        assert first.1 + rest.1 == [Emit(decode, body)];
      } else {
        assert first.1 == [];
        assert first.1 + rest.1 == rest.1;
      }
    }
  }

  /** One frame sent by `send` and received in any chunks is decoded back to the message. */
  lemma FrameRoundTrip(decode: seq<Byte> -> Option<Json>, body: seq<Byte>, chunks: seq<seq<Byte>>)
    requires |body| < Two32
    requires Concat(chunks) == Frame(body)
    ensures FeedAll(decode, Idle, chunks) == (Idle, [Emit(decode, body)])
  {
    assert PrefixState(body, 0) == Idle;
    ChunkedFrame(decode, body, 0, chunks);
  }

  /**
   * Two frames arriving in one chunk: the first message is emitted, the second
   * frame is lost, and the first body is left behind as the start of a new
   * header when it is shorter than a header.
   */
  lemma BackToBackFramesAsWritten(decode: seq<Byte> -> Option<Json>, b1: seq<Byte>, b2: seq<Byte>)
    requires |b1| < 4 && |b2| < Two32
    ensures Feed(decode, Idle, Frame(b1) + Frame(b2)) == (FrameState(b1, None), [Emit(decode, b1)])
  {
    var p := Frame(b1) + Frame(b2);
    assert p[..4] == Be32(|b1|);
    Be32RoundTrip(|b1|);
    assert p[4..] == b1 + Frame(b2);
    assert (p[4..])[..|b1|] == b1;
    assert [] + p == p && [] + b1 == b1;
    assert Feed(decode, Idle, p) == Feed(decode, FrameState([], Some(|b1|)), b1 + Frame(b2));
    assert Feed(decode, Idle, b1) == (FrameState(b1, None), []);
    var data := b1 + Frame(b2);
    assert data[..|b1|] == b1;
    assert Feed(decode, FrameState([], Some(|b1|)), data) ==
      (Feed(decode, Idle, b1).0, [Emit(decode, [] + b1)] + Feed(decode, Idle, b1).1);
    assert [Emit(decode, [] + b1)] + Feed(decode, Idle, b1).1 == [Emit(decode, b1)];
    assert Feed(decode, Idle, Frame(b1) + Frame(b2)) == Feed(decode, FrameState([], Some(|b1|)), data);
  }

  /** The framing as evidently intended: after a completed body, the data following it is fed. */
  function FeedFixed(decode: seq<Byte> -> Option<Json>, st: FrameState, data: seq<Byte>): (FrameState, seq<Event>)
    decreases |st.payload| + |data|, if st.toRead.Some? then 1 else 0
  {
    match st.toRead
    case None =>
      var p := st.payload + data;
      if |p| < 4 then (FrameState(p, None), [])
      else FeedFixed(decode, FrameState([], Some(Be32Value(p[..4]))), p[4..])
    case Some(n) =>
      if |data| > n then
        var next := FeedFixed(decode, Idle, data[n..]);
        (next.0, [Emit(decode, st.payload + data[..n])] + next.1)
      else if |data| == n then (Idle, [Emit(decode, st.payload + data)])
      else (FrameState(st.payload + data, Some(n - |data|)), [])
  }

  function Frames(bodies: seq<seq<Byte>>): seq<Byte> {
    if bodies == [] then [] else Frame(bodies[0]) + Frames(bodies[1..])
  }

  /** With the correction, a chunk holding several whole frames yields every message, in order. */
  lemma {:induction false} FixedFeedsAllFrames(decode: seq<Byte> -> Option<Json>, bodies: seq<seq<Byte>>)
    requires forall i :: 0 <= i < |bodies| ==> |bodies[i]| < Two32
    ensures FeedFixed(decode, Idle, Frames(bodies)) ==
      (Idle, seq(|bodies|, i requires 0 <= i < |bodies| => Emit(decode, bodies[i])))
  {
    if bodies != [] {
      var b := bodies[0];
      var rest := Frames(bodies[1..]);
      var p := Frame(b) + rest;
      assert p[..4] == Be32(|b|);
      Be32RoundTrip(|b|);
      assert p[4..] == b + rest;
      assert (b + rest)[..|b|] == b && (b + rest)[|b|..] == rest;
      FixedFeedsAllFrames(decode, bodies[1..]);
      var tail := seq(|bodies| - 1, i requires 0 <= i < |bodies| - 1 => Emit(decode, bodies[1..][i]));
      assert seq(|bodies|, i requires 0 <= i < |bodies| => Emit(decode, bodies[i])) == [Emit(decode, b)] + tail;
      assert [] + p == p && [] + b == b;
      assert FeedFixed(decode, Idle, p) == FeedFixed(decode, FrameState([], Some(|b|)), b + rest);
      if rest == [] {
        assert bodies[1..] == [];
        assert b + rest == b;
        assert tail == [];
        assert FeedFixed(decode, FrameState([], Some(|b|)), b) == (Idle, [Emit(decode, [] + b)]);
        assert [Emit(decode, b)] + tail == [Emit(decode, b)];
        assert Frames(bodies) == p;
      } else {
        assert FeedFixed(decode, Idle, rest) == (Idle, tail);
      }
    } else {
      assert Idle.payload + Frames(bodies) == [];
      assert FeedFixed(decode, Idle, []) == (FrameState([], None), []);
      assert seq(|bodies|, i requires 0 <= i < |bodies| => Emit(decode, bodies[i])) == [];
    }
  }

  // ---------------------------------------------------------------------------
  // The connection object

  /** The code of an error response: a string or an integer. */
  datatype ErrorCode = StrCode(s: String) | IntCode(i: int)

  /** The message `sendSuccess` sends: success, with the data or `null`. */
  function SuccessMessage(data: Option<Json>): (r: Json)
    ensures r.JObject? && |r.fields| > 0 && r.fields[0] == ("success", JBool(true))
  {
    JObject([("success", JBool(true)), ("data", data.GetOr(JNull))])
  }

  /** The message `sendError` sends: failure, the error text, the code and the context. */
  function ErrorMessage(message: String, code: ErrorCode, context: seq<(String, Json)>): (r: Json)
    ensures r.JObject? && |r.fields| > 0 && r.fields[0] == ("success", JBool(false))
    ensures r != SuccessMessage(None) && forall d :: r != SuccessMessage(Some(d))
  {
    var c := match code case StrCode(s) => JStr(s) case IntCode(i) => JInt(i);
    JObject([("success", JBool(false)), ("error", JStr(message)), ("code", c), ("context", JObject(context))])
  }

  class Conn {
    /** `json_decode` and `json_encode`, taken as given. */
    const decode: seq<Byte> -> Option<Json>
    const encode: Json -> seq<Byte>
    var payload: seq<Byte>
    var bytesToRead: Option<nat>
    /** The events emitted so far. */
    var events: seq<Event>
    /** The chunks written to the socket so far. */
    var written: seq<seq<Byte>>
    var ended: bool

    constructor(decode: seq<Byte> -> Option<Json>, encode: Json -> seq<Byte>)
      ensures this.decode == decode && this.encode == encode
      ensures payload == [] && bytesToRead == None && events == [] && written == [] && !ended
    {
      this.decode := decode;
      this.encode := encode;
      payload := [];
      bytesToRead := None;
      events := [];
      written := [];
      ended := false;
    }

    /** `handleData`: the state moves as `Feed` describes and its events are appended. */
    method HandleData(data: seq<Byte>)
      modifies this`payload, this`bytesToRead, this`events
      ensures var after := Feed(decode, old(FrameState(payload, bytesToRead)), data);
        FrameState(payload, bytesToRead) == after.0 && events == old(events) + after.1
      decreases |payload| + |data|
    {
      if bytesToRead.None? {
        payload := payload + data;
        if |payload| < 4 {
          return;
        }
        bytesToRead := Some(Be32Value(payload[..4]));
        var rest := payload[4..];
        payload := [];
        HandleData(rest);
      } else {
        var n := bytesToRead.value;
        var remaining := n - |data|;
        var chunk := data;
        var hasNext := false;
        if remaining < 0 {
          hasNext := true;
          chunk := data[..n];
          remaining := 0;
        }
        payload := payload + chunk;
        if remaining == 0 {
          events := events + [Emit(decode, payload)];
          bytesToRead := None;
          payload := [];
          if hasNext {
            HandleData(chunk);
          }
        } else {
          bytesToRead := Some(remaining);
        }
      }
    }

    /** `send`: the encoded message is written as one frame; the connection is ended when asked. */
    method Send(message: Json, end: bool)
      modifies this`written, this`ended
      ensures written == old(written) + [Frame(encode(message))]
      ensures ended == (old(ended) || end)
    {
      var body := encode(message);
      written := written + [Be32(|body|) + body];
      if end {
        ended := true;
      }
    }

    method SendSuccess(data: Option<Json>)
      modifies this`written, this`ended
      ensures written == old(written) + [Frame(encode(SuccessMessage(data)))]
      ensures ended
    {
      Send(SuccessMessage(data), true);
    }

    method SendError(message: String, code: ErrorCode, context: seq<(String, Json)>)
      modifies this`written, this`ended
      ensures written == old(written) + [Frame(encode(ErrorMessage(message, code, context)))]
      ensures ended == old(ended)
    {
      Send(ErrorMessage(message, code, context), false);
    }
  }

  /**
   * What one side sends, the other side reads back: when decoding inverts
   * encoding, a frame written by `send` and received in any chunks by an idle
   * connection emits exactly the message sent.
   */
  lemma SendReceiveRoundTrip(decode: seq<Byte> -> Option<Json>, encode: Json -> seq<Byte>, m: Json,
                             chunks: seq<seq<Byte>>)
    requires decode(encode(m)) == Some(m) && |encode(m)| < Two32
    requires Concat(chunks) == Frame(encode(m))
    ensures FeedAll(decode, Idle, chunks) == (Idle, [Message(m)])
  {
    FrameRoundTrip(decode, encode(m), chunks);
  }
}
