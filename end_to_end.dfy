/** The end-to-end check against the tool server: the checker's decoder and
    the server's drain loop read a stream the same way, and a request framed
    by the checker comes back as the response the dispatcher computes. */
module EndToEnd {
  import opened Wrappers
  import opened Encoding
  import opened JsonValues
  import opened FrameCodec
  import opened McpServer
  import opened McpClient

  /** On a stream of truthy messages the server's drain loop and the
      checker's `parseFrames` take the same frames: the pass ends normally
      exactly when `parseFrames` does not throw, both leave the same bytes,
      and the server answers exactly the messages the checker decodes. */
  lemma SameDecomposition(h: Handler, buf: seq<Byte>)
    requires AllTruthy(h.codec, SplitFrames(buf).payloads)
    ensures var d := Drain(h, buf);
            var c := ParseAll(h.codec, buf);
            (d.stop == Idle <==> c.Batch?) &&
            (c.Batch? ==> c.pending == d.buffer && d.replies == Replies(h, c.messages))
  {
    DrainFollowsSplit(h, buf);
    ParseAllFollowsSplit(h.codec, buf);
  }

  /** The checker reads a result response as its result and an error
      response as "MCP error for <method>: <message>". */
  lemma OutcomeOfResponse(verb: string, id: Json, outcome: Result<Json, string>)
    ensures Outcome(verb, Response(id, outcome)) ==
            match outcome
            case Ok(result) => Ok(Some(result))
            case Err(message) => Err("MCP error for " + verb + ": " + message)
  {
    ResponseShape(id, outcome);
  }

  /** A request framed by the checker and read by the server is answered by
      exactly one frame, which the checker decodes, stores under the request's
      id and turns into the dispatcher's result or error. */
  lemma RequestRoundTrip(ctx: Context, id: int, verb: string, params: Json, responses: map<Json, Json>)
    requires Inverts(ctx.codec, RequestMessage(id, verb, params))
    requires Inverts(ctx.codec, Response(JNum(id), HandleRequest(ctx, RequestMessage(id, verb, params))))
    ensures var request := RequestMessage(id, verb, params);
            var response := Response(JNum(id), HandleRequest(ctx, request));
            var d := Drain(ServerHandler(ctx), Utf8(Frame(ctx.codec, request)));
            d == Drained([response], [], Idle) &&
            ParseAll(ctx.codec, EncodeFrames(Payloads(ctx.codec, d.replies))) == Batch([response], []) &&
            Recorded(responses, [response]) == responses[JNum(id) := response]
    ensures Outcome(verb, Response(JNum(id), HandleRequest(ctx, RequestMessage(id, verb, params)))) ==
            match HandleRequest(ctx, RequestMessage(id, verb, params))
            case Ok(result) => Ok(Some(result))
            case Err(message) => Err("MCP error for " + verb + ": " + message)
  {
    var request := RequestMessage(id, verb, params);
    var response := Response(JNum(id), HandleRequest(ctx, request));
    RequestDrained(ctx, id, verb, params);
    ResponseShape(JNum(id), HandleRequest(ctx, request));
    ResponseDecoded(ctx.codec, response, responses);
    OutcomeOfResponse(verb, JNum(id), HandleRequest(ctx, request));
  }

  /** The server answers the frame of one request with exactly its response. */
  lemma RequestDrained(ctx: Context, id: int, verb: string, params: Json)
    requires Inverts(ctx.codec, RequestMessage(id, verb, params))
    ensures var request := RequestMessage(id, verb, params);
            Drain(ServerHandler(ctx), Utf8(Frame(ctx.codec, request))) ==
              Drained([Response(JNum(id), HandleRequest(ctx, request))], [], Idle)
  {
    var request := RequestMessage(id, verb, params);
    RequestFields(id, verb, params);
    SingleFrames(ctx.codec, request);
    DrainWholeFrames(ServerHandler(ctx), [request]);
    RepliesOfOne(ServerHandler(ctx), request);
  }

  /** The checker decodes the one frame of a response and stores it under its id. */
  lemma ResponseDecoded(codec: JsonCodec, response: Json, responses: map<Json, Json>)
    requires Inverts(codec, response) && Get(response, "id").Some?
    ensures ParseAll(codec, EncodeFrames(Payloads(codec, [response]))) == Batch([response], [])
    ensures Recorded(responses, [response]) == responses[Get(response, "id").value := response]
  {
    ParseWholeFrames(codec, [response]);
    var none: seq<Json> := [];
    assert [response][..0] == none;
  }

  /** The stream of one message's frame, as `frame` writes it. */
  lemma SingleFrames(codec: JsonCodec, message: Json)
    ensures EncodeFrames(Payloads(codec, [message])) == Utf8(Frame(codec, message))
  {
    var ps := Payloads(codec, [message]);
    assert ps == [Utf8(codec.stringify(message))];
    var none: seq<seq<Byte>> := [];
    assert ps[1..] == none;
    assert EncodeFrame(ps[0]) + [] == EncodeFrame(ps[0]);
  }
}
