/** The client side of the end-to-end check of the tool server: it frames
    requests with `frame`, decodes the server's stdout with `parseFrames`,
    keeps the responses by id, and numbers its requests 1, 2, 3, ... */
module McpClient {
  import opened Wrappers
  import opened Seqs
  import opened Encoding
  import opened JsonValues
  import opened FrameCodec

  /** `frame`: the text written to the server's stdin for a message. */
  function Frame(codec: JsonCodec, message: Json): (text: string)
    ensures Utf8(text) == EncodeFrame(Utf8(codec.stringify(message)))
  {
    FrameTextBytes(codec.stringify(message));
    FrameText(codec.stringify(message))
  }

  const MISSING_LENGTH_IN_FRAME := "Error: Missing Content-Length header in MCP frame"

  /** What `parseFrames` returns, `{messages, pending}`, or the text of the
      error it throws. */
  datatype ParseResult = Batch(messages: seq<Json>, pending: seq<Byte>) | Thrown(error: string)

  /** `parseFrames` as a function of its input. Unlike the server, it keeps
      going after falsy messages; a length that is not a number makes
      `JSON.parse("")` throw. */
  function ParseAll(codec: JsonCodec, buf: seq<Byte>): ParseResult
    decreases |buf|
  {
    match ReadFrame(buf)
    case NeedMore => Batch([], buf)
    case MissingLength => Thrown(MISSING_LENGTH_IN_FRAME)
    case BadLength => Thrown(EMPTY_INPUT_ERROR)
    case Complete(payload, rest) =>
      match codec.parse(payload)
      case SyntaxError(text) => Thrown(text)
      case Parsed(message) => Prefixed([message], ParseAll(codec, rest))
  }

  /** An empty payload throws what a length that is not a number throws. */
  lemma EmptyPayloadThrows(codec: JsonCodec, buf: seq<Byte>)
    requires ReadFrame(buf).Complete? && ReadFrame(buf).payload == []
    ensures ParseAll(codec, buf) == Thrown(EMPTY_INPUT_ERROR)
  {
  }

  /** `earlier` messages taken before a parse that ended in `r`. */
  function Prefixed(earlier: seq<Json>, r: ParseResult): ParseResult
  {
    match r
    case Batch(messages, pending) => Batch(earlier + messages, pending)
    case Thrown(error) => Thrown(error)
  }

  lemma PrefixedTwice(a: seq<Json>, b: seq<Json>, r: ParseResult)
    ensures Prefixed(a, Prefixed(b, r)) == Prefixed(a + b, r)
  {
    if r.Batch? {
      assert a + (b + r.messages) == (a + b) + r.messages;
    }
  }

  lemma PrefixedNothing(r: ParseResult)
    ensures Prefixed([], r) == r
  {
    if r.Batch? {
      assert [] + r.messages == r.messages;
    }
  }

  /** One frame off the front: its message comes first. */
  lemma ParseAllStep(codec: JsonCodec, buf: seq<Byte>, p: seq<Byte>, rest: seq<Byte>, message: Json)
    requires ReadFrame(buf) == Complete(p, rest) && codec.parse(p) == Parsed(message)
    ensures ParseAll(codec, buf) == Prefixed([message], ParseAll(codec, rest))
  {
  }

  /** `parseFrames`: the loop over `pending`, pushing one message per whole frame. */
  method ParseFrames(codec: JsonCodec, buffer: seq<Byte>) returns (r: ParseResult)
    ensures r == ParseAll(codec, buffer)
  {
    var messages: seq<Json> := [];
    var pending := buffer;
    PrefixedNothing(ParseAll(codec, buffer));
    while true
      invariant ParseAll(codec, buffer) == Prefixed(messages, ParseAll(codec, pending))
      decreases |pending|
    {
      var headerEnd := IndexOf(pending, SEPARATOR);
      if headerEnd.None? {
        assert ParseAll(codec, pending) == Batch([], pending);
        break;
      }
      var h := headerEnd.value;
      ReadFrameAt(pending, h);
      match ReadHeader(pending[..h])
      case NoLengthLine =>
        assert ParseAll(codec, pending) == Thrown(MISSING_LENGTH_IN_FRAME);
        return Thrown(MISSING_LENGTH_IN_FRAME);
      case Announced(NotANumber) =>
        // the message end is NaN: the length test fails and `JSON.parse("")` throws
        return Thrown(EMPTY_INPUT_ERROR);
      case Announced(Length(n)) =>
        var messageStart := h + 4;
        var messageEnd := messageStart + n;
        if |pending| < messageEnd {
          assert ParseAll(codec, pending) == Batch([], pending);
          break;
        }
        assert ReadHeader(pending[..h]).value.n == n;
        assert ReadFrame(pending) == Complete(pending[messageStart..messageEnd], pending[messageEnd..]);
        match codec.parse(pending[messageStart..messageEnd])
        case SyntaxError(text) =>
          assert ParseAll(codec, pending) == Thrown(text);
          return Thrown(text);
        case Parsed(message) =>
          ParseAllStep(codec, pending, pending[messageStart..messageEnd], pending[messageEnd..], message);
          PrefixedTwice(messages, [message], ParseAll(codec, pending[messageEnd..]));
          messages := messages + [message];
          pending := pending[messageEnd..];
    }
    assert messages + [] == messages;
    return Batch(messages, pending);
  }

  // ------------------------------------------------------------ properties

  /** The frame of one message parses back to exactly that message, with
      nothing pending. */
  lemma ParseOneFrame(codec: JsonCodec, message: Json)
    requires Inverts(codec, message)
    ensures ParseAll(codec, Utf8(Frame(codec, message))) == Batch([message], [])
  {
    var p := Utf8(codec.stringify(message));
    RoundTrip(p);
    var empty: seq<Byte> := [];
    assert IndexOf(empty, SEPARATOR).None?;
    assert [message] + [] == [message];
  }

  /** What is pending is a suffix of the input holding no complete frame, and
      all of the input when no message was taken. */
  lemma {:induction false} ParseAllPending(codec: JsonCodec, buf: seq<Byte>)
    requires ParseAll(codec, buf).Batch?
    ensures IsSuffix(ParseAll(codec, buf).pending, buf)
    ensures ReadFrame(ParseAll(codec, buf).pending) == NeedMore
    ensures ParseAll(codec, buf).messages == [] ==> ParseAll(codec, buf).pending == buf
    decreases |buf|
  {
    match ReadFrame(buf)
    case Complete(p, rest) =>
      ReadFrameSlices(buf);
      assert IsSuffix(rest, buf);
      ParseAllPending(codec, rest);
      SuffixTransitive(ParseAll(codec, rest).pending, rest, buf);
    case _ =>
  }

  /** `parseFrames` takes the frames `SplitFrames` finds, in stream order,
      when all of them parse: it returns their messages and leaves what the
      split leaves, or throws where the split found a bad header. */
  lemma {:induction false} ParseAllFollowsSplit(codec: JsonCodec, buf: seq<Byte>)
    requires ParsesAll(codec, SplitFrames(buf).payloads)
    ensures ParseAll(codec, buf) == SplitParsed(codec, SplitFrames(buf))
    decreases |buf|
  {
    match ReadFrame(buf)
    case Complete(p, rest) =>
      SplitFramesStep(buf, p, rest);
      ParsesLater(codec, SplitFrames(buf).payloads, p, SplitFrames(rest).payloads);
      ParseAllFollowsSplit(codec, rest);
      FollowsSplitStep(codec, buf, p, rest);
    case _ =>
      SplitFramesNone(buf);
  }

  /** The outcome a split predicts for `parseFrames`. */
  function SplitParsed(codec: JsonCodec, s: Frames): ParseResult
    requires ParsesAll(codec, s.payloads)
  {
    match s.stop
    case MissingLength => Thrown(MISSING_LENGTH_IN_FRAME)
    case BadLength => Thrown(EMPTY_INPUT_ERROR)
    case _ => Batch(Values(codec, s.payloads), s.rest)
  }

  lemma ParsesLater(codec: JsonCodec, ps: seq<seq<Byte>>, p: seq<Byte>, later: seq<seq<Byte>>)
    requires ps == [p] + later && ParsesAll(codec, ps)
    ensures ParsesAll(codec, later)
  {
    forall i | 0 <= i < |later| ensures codec.parse(later[i]).Parsed? {
      assert later[i] == ps[i + 1];
    }
  }

  lemma FollowsSplitStep(codec: JsonCodec, buf: seq<Byte>, p: seq<Byte>, rest: seq<Byte>)
    requires ReadFrame(buf) == Complete(p, rest)
    requires SplitFrames(buf) ==
             Frames([p] + SplitFrames(rest).payloads, SplitFrames(rest).rest, SplitFrames(rest).stop)
    requires ParsesAll(codec, SplitFrames(buf).payloads)
    requires ParsesAll(codec, SplitFrames(rest).payloads)
    requires ParseAll(codec, rest) == SplitParsed(codec, SplitFrames(rest))
    ensures ParseAll(codec, buf) == SplitParsed(codec, SplitFrames(buf))
  {
    var ps := SplitFrames(buf).payloads;
    assert ps[0] == p;
    var vs := Values(codec, ps);
    assert vs == [vs[0]] + Values(codec, SplitFrames(rest).payloads);
    ParseAllStep(codec, buf, p, rest, vs[0]);
  }

  /** Frames of messages the codec reads back, back to back, parse into
      exactly those messages in order, with nothing pending. */
  lemma ParseWholeFrames(codec: JsonCodec, messages: seq<Json>)
    requires forall i :: 0 <= i < |messages| ==> Inverts(codec, messages[i])
    ensures ParseAll(codec, EncodeFrames(Payloads(codec, messages))) == Batch(messages, [])
  {
    var ps := Payloads(codec, messages);
    SplitWholeFrames(ps);
    assert ParsesAll(codec, ps);
    ParseAllFollowsSplit(codec, EncodeFrames(ps));
    assert Values(codec, ps) == messages;
  }

  /** Two whole frames, as `frame` writes them, yield both messages in order
      and leave nothing pending. */
  lemma ParseTwoFrames(codec: JsonCodec, m1: Json, m2: Json)
    requires Inverts(codec, m1) && Inverts(codec, m2)
    ensures ParseAll(codec, Utf8(Frame(codec, m1) + Frame(codec, m2))) == Batch([m1, m2], [])
  {
    Utf8Concat(Frame(codec, m1), Frame(codec, m2));
    var ps := Payloads(codec, [m1, m2]);
    assert ps == [Utf8(codec.stringify(m1)), Utf8(codec.stringify(m2))];
    var tail := ps[1..];
    assert tail == [ps[1]];
    var none: seq<seq<Byte>> := [];
    assert tail[1..] == none;
    assert EncodeFrames(tail) == EncodeFrame(ps[1]) + EncodeFrames(none);
    assert EncodeFrame(ps[1]) + [] == EncodeFrame(ps[1]);
    assert EncodeFrames(ps) == EncodeFrame(ps[0]) + EncodeFrames(tail);
    ParseWholeFrames(codec, [m1, m2]);
  }

  /** Chunk boundaries do not matter: parsing `a`, then parsing what it left
      pending with `b` appended, finds the same messages as parsing `a + b`. */
  lemma {:induction false} ParseAllChunked(codec: JsonCodec, a: seq<Byte>, b: seq<Byte>)
    requires ParseAll(codec, a).Batch?
    ensures var ra := ParseAll(codec, a);
            ParseAll(codec, a + b) == Prefixed(ra.messages, ParseAll(codec, ra.pending + b))
    decreases |a|
  {
    match ReadFrame(a)
    case Complete(p, rest) =>
      ReadFrameExtend(a, b);
      var message := codec.parse(p).value;
      ParseAllStep(codec, a, p, rest, message);
      ParseAllStep(codec, a + b, p, rest + b, message);
      ParseAllChunked(codec, rest, b);
      var rr := ParseAll(codec, rest);
      PrefixedTwice([message], rr.messages, ParseAll(codec, rr.pending + b));
    case NeedMore =>
      PrefixedNothing(ParseAll(codec, a + b));
  }

  // ------------------------------------------------------------- responses

  /** `responses.set(message.id, message)` when the id is defined. */
  function Record(responses: map<Json, Json>, message: Json): map<Json, Json>
  {
    match Get(message, "id")
    case None => responses
    case Some(id) => responses[id := message]
  }

  /** The map after recording `messages` in order. */
  function Recorded(responses: map<Json, Json>, messages: seq<Json>): map<Json, Json>
    decreases |messages|
  {
    if messages == [] then responses
    else Record(Recorded(responses, messages[..|messages| - 1]), messages[|messages| - 1])
  }

  /** A key is recorded exactly when it was there before or is the id of one
      of the messages; a key no message carries keeps its old value. */
  lemma {:induction false} RecordedKeys(responses: map<Json, Json>, messages: seq<Json>, key: Json)
    ensures key in Recorded(responses, messages) <==>
            key in responses || exists i :: 0 <= i < |messages| && Get(messages[i], "id") == Some(key)
    ensures (forall i :: 0 <= i < |messages| ==> Get(messages[i], "id") != Some(key)) && key in responses ==>
            Recorded(responses, messages)[key] == responses[key]
    decreases |messages|
  {
    if messages != [] {
      var init := messages[..|messages| - 1];
      RecordedKeys(responses, init, key);
      if exists i :: 0 <= i < |init| && Get(init[i], "id") == Some(key) {
        var i :| 0 <= i < |init| && Get(init[i], "id") == Some(key);
        assert messages[i] == init[i];
      }
      if exists i :: 0 <= i < |messages| && Get(messages[i], "id") == Some(key) {
        var i :| 0 <= i < |messages| && Get(messages[i], "id") == Some(key);
        if i < |init| {
          assert init[i] == messages[i];
        }
      }
      if forall i :: 0 <= i < |messages| ==> Get(messages[i], "id") != Some(key) {
        forall i | 0 <= i < |init| ensures Get(init[i], "id") != Some(key) {
          assert init[i] == messages[i];
        }
      }
    }
  }

  /** The value kept for an id is the last message that carried it. */
  lemma {:induction false} RecordedLatest(responses: map<Json, Json>, messages: seq<Json>, i: nat)
    requires i < |messages| && Get(messages[i], "id").Some?
    requires forall j :: i < j < |messages| ==> Get(messages[j], "id") != Get(messages[i], "id")
    ensures Get(messages[i], "id").value in Recorded(responses, messages)
    ensures Recorded(responses, messages)[Get(messages[i], "id").value] == messages[i]
    decreases |messages|
  {
    var init := messages[..|messages| - 1];
    if i < |messages| - 1 {
      assert init[i] == messages[i];
      forall j | i < j < |init| ensures Get(init[j], "id") != Get(init[i], "id") {
        assert init[j] == messages[j];
      }
      RecordedLatest(responses, init, i);
    }
  }

  /** Where the stdout handler stops recording: the first null message,
      whose `.id` throws a TypeError, or the end. */
  function FirstNull(messages: seq<Json>): (k: nat)
    ensures k <= |messages|
    ensures forall j :: 0 <= j < k ==> messages[j] != JNull
    ensures k < |messages| ==> messages[k] == JNull
  {
    if messages == [] || messages[0] == JNull then 0 else 1 + FirstNull(messages[1..])
  }

  const NULL_ID_ERROR := "TypeError: Cannot read properties of null (reading 'id')"

  /** The request `request` sends for the id it is given. */
  function RequestMessage(id: int, verb: string, params: Json): Json
  {
    JObj([("jsonrpc", JStr("2.0")), ("id", JNum(id)), ("method", JStr(verb)), ("params", params)])
  }

  /** A request carries its id, method and params where the server looks for them. */
  lemma RequestFields(id: int, verb: string, params: Json)
    ensures Get(RequestMessage(id, verb, params), "id") == Some(JNum(id))
    ensures Get(RequestMessage(id, verb, params), "method") == Some(JStr(verb))
    ensures Get(RequestMessage(id, verb, params), "params") == Some(params)
  {
    var members := RequestMessage(id, verb, params).members;
    var m1 := members[..1];
    var m2 := members[..2];
    var m3 := members[..3];
    assert m2 == m1 + [("id", JNum(id))];
    assert m3 == m2 + [("method", JStr(verb))];
    assert members == m3 + [("params", params)];
    LookupLater(m1, "id", JNum(id), "jsonrpc");
    LookupLater(m2, "method", JStr(verb), "id");
    LookupLater(m3, "params", params, "id");
    LookupLater(m3, "params", params, "method");
  }

  /** What `request` makes of the response to `verb`: the error's message
      when `response.error` is truthy, otherwise `response.result`. */
  function Outcome(verb: string, response: Json): Result<Option<Json>, string>
  {
    match Get(response, "error")
    case Some(error) =>
      if Falsy(error) then Ok(Get(response, "result"))
      else Err("MCP error for " + verb + ": " + JsText(Get(error, "message")))
    case None => Ok(Get(response, "result"))
  }

  /** The checker process: the bytes read from the server's stdout and not
      yet decoded, the responses by id, and the next request id. `issued`
      is the history of ids handed out. */
  class Client {
    const codec: JsonCodec
    var outputBuffer: seq<Byte>
    var responses: map<Json, Json>
    var requestId: int
    ghost var issued: seq<int>

    /** The ids handed out so far are 1, 2, ..., and the next one follows them. */
    ghost predicate Valid()
      reads this
    {
      requestId == |issued| + 1 && forall k :: 0 <= k < |issued| ==> issued[k] == k + 1
    }

    constructor (codec: JsonCodec)
      ensures Valid() && this.codec == codec
      ensures outputBuffer == [] && responses == map[] && requestId == 1 && issued == []
    {
      this.codec := codec;
      outputBuffer := [];
      responses := map[];
      requestId := 1;
      issued := [];
    }

    /** The first half of `request`: take a fresh id and frame the request.
        Waiting for the response is left to the caller. */
    method Request(verb: string, params: Json) returns (id: int, text: string)
      requires Valid()
      modifies this`requestId, this`issued
      ensures Valid() && issued == old(issued) + [id]
      ensures id == |old(issued)| + 1 && id !in old(issued)
      ensures text == Frame(codec, RequestMessage(id, verb, params))
    {
      id := requestId;
      requestId := requestId + 1;
      issued := issued + [id];
      text := Frame(codec, RequestMessage(id, verb, params));
    }

    /** The stdout handler: append the chunk, decode all whole frames, keep
        the rest pending, and record each message that has an id. A throw from
        `parseFrames` leaves the appended buffer and the map as they were; a
        null message throws after the messages before it were recorded. */
    method OnStdout(chunk: seq<Byte>) returns (failure: Option<string>)
      modifies this`outputBuffer, this`responses
      ensures match ParseAll(codec, old(outputBuffer) + chunk)
              case Thrown(error) =>
                failure == Some(error) && outputBuffer == old(outputBuffer) + chunk && responses == old(responses)
              case Batch(messages, pending) =>
                outputBuffer == pending &&
                responses == Recorded(old(responses), messages[..FirstNull(messages)]) &&
                failure == if FirstNull(messages) < |messages| then Some(NULL_ID_ERROR) else None
    {
      outputBuffer := outputBuffer + chunk;
      var parsed := ParseFrames(codec, outputBuffer);
      if parsed.Thrown? {
        return Some(parsed.error);
      }
      outputBuffer := parsed.pending;
      failure := Store(parsed.messages);
    }

    /** The loop of the stdout handler over the decoded messages: record each
        one that has an id, until a null message throws. */
    method Store(messages: seq<Json>) returns (failure: Option<string>)
      modifies this`responses
      ensures responses == Recorded(old(responses), messages[..FirstNull(messages)])
      ensures failure == if FirstNull(messages) < |messages| then Some(NULL_ID_ERROR) else None
    {
      var i := 0;
      while i < |messages|
        invariant i <= FirstNull(messages)
        invariant responses == Recorded(old(responses), messages[..i])
      {
        var message := messages[i];
        if message == JNull {
          return Some(NULL_ID_ERROR);
        }
        assert messages[..i + 1][..i] == messages[..i];
        var id := Get(message, "id");
        if id.Some? {
          responses := responses[id.value := message];
        }
        i := i + 1;
      }
      assert messages[..i] == messages;
      return None;
    }
  }
}
