/**
 * streamChat (lib/chat/stream.ts): the blocks of the response, decoded
 * and dispatched on their event name into typed events.
 */
module ChatStream {
  import opened Wrappers
  import opened Text
  import opened Json
  import opened Schemas
  import opened Errors
  import opened SseFraming
  import opened SseFields
  import Http

  /* ------------------------------------------------------------------ */
  /* Typed events                                                        */
  /* ------------------------------------------------------------------ */

  /** ChatStreamEvent: the closed set of events the stream yields. */
  datatype ChatStreamEvent =
    | Ready(corrId: string)
    | Chunk(delta: string)
    | Citations(citations: seq<Citation>)
    | Done(usage: Usage)
    | Ping
    /** The whole payload, unknown keys included. */
    | Error(envelope: Json)

  /** The `event:` name each kind of event arrives under. */
  function EventName(e: ChatStreamEvent): string {
    match e
    case Ready(_) => "ready"
    case Chunk(_) => "chunk"
    case Citations(_) => "citations"
    case Done(_) => "done"
    case Ping => "ping"
    case Error(_) => "error"
  }

  /** What the payload schemas guarantee of an event. */
  predicate ValidEvent(e: ChatStreamEvent, host: Host) {
    match e
    case Ready(id) => host.isUuid(id)
    case Chunk(_) => true
    case Citations(cs) => forall i :: 0 <= i < |cs| ==> ValidCitation(cs[i], host)
    case Done(u) => ValidUsage(u)
    case Ping => true
    case Error(env) =>
      env.JObject? && "corr_id" in env.fields && env.fields["corr_id"].JString?
      && host.isUuid(env.fields["corr_id"].s)
  }

  /** The JSON payload an event is sent with (a ping carries none of its own). */
  function EncodeEvent(e: ChatStreamEvent): Json {
    match e
    case Ready(id) => JObject(map["corr_id" := JString(id)])
    case Chunk(delta) => JObject(map["delta" := JString(delta)])
    case Citations(cs) => JArray(seq(|cs|, i requires 0 <= i < |cs| => EncodeCitation(cs[i])))
    case Done(u) => JObject(map["usage" := EncodeUsage(u)])
    case Ping => JObject(map[])
    case Error(env) => env
  }

  /** The decoded event was read from `v`: `v` is its encoding, possibly with extra keys. */
  predicate ReadFrom(e: ChatStreamEvent, v: Json) {
    match e
    case Error(env) => env == v
    case _ => Covers(v, EncodeEvent(e))
  }

  /**
   * The payload schemas of the five events that carry data: ReadyEvent,
   * ChunkEvent, CitationsEvent, DoneEvent and ErrorEvent (which keeps
   * unknown keys). Other names have no schema.
   */
  function Payload(name: string, v: Json, host: Host): (r: Option<ChatStreamEvent>)
    ensures r.Some? ==> EventName(r.value) == name && r.value != Ping
    ensures r.Some? ==> ValidEvent(r.value, host) && ReadFrom(r.value, v)
  {
    if name == "ready" then
      var id := StringField(v, "corr_id");
      if id.Some? && host.isUuid(id.value) then Some(Ready(id.value)) else None
    else if name == "chunk" then
      var delta := StringField(v, "delta");
      if delta.Some? then Some(Chunk(delta.value)) else None
    else if name == "citations" then
      var cs := DecodeCitations(v, host);
      if cs.Some? then Some(Citations(cs.value)) else None
    else if name == "done" then
      var usage := match Get(v, "usage") case Some(u) => DecodeUsage(u) case None => None;
      if usage.Some? then Some(ChatStreamEvent.Done(usage.value)) else None
    else if name == "error" then
      var id := StringField(v, "corr_id");
      if id.Some? && host.isUuid(id.value) then Some(Error(v)) else None
    else None
  }

  /** Every valid event comes back from its own payload. */
  lemma PayloadRoundTrip(e: ChatStreamEvent, host: Host)
    requires ValidEvent(e, host) && e != Ping
    ensures Payload(EventName(e), EncodeEvent(e), host) == Some(e)
  {
    match e
    case Citations(cs) =>
      var v := EncodeEvent(e);
      forall i | 0 <= i < |v.items| ensures DecodeCitation(v.items[i], host) == Some(cs[i]) {
        CitationRoundTrip(cs[i], host);
      }
      assert DecodeCitations(v, host).value == cs;
    case Done(u) =>
      UsageRoundTrip(u);
    case _ =>
  }

  /** The payload names the stream dispatches on, ping included. */
  predicate IsKnownName(name: string) {
    name in {"ready", "chunk", "citations", "done", "ping", "error"}
  }

  /** What one block gives: nothing, an event, or the SyntaxError of `JSON.parse` that ends the stream. */
  datatype Step = Skip | Emit(event: ChatStreamEvent) | Fail

  /**
   * The dispatch of streamChat on one decoded block: a missing, empty or
   * unknown name is skipped; `ping` is emitted whatever its data; the other
   * names need data, then parse it (which throws on text that is not JSON)
   * and skip a payload that fails its schema.
   */
  function Dispatch(d: Decoded, host: Host): (s: Step)
    ensures s.Emit? ==> d.event == Some(EventName(s.event)) && ValidEvent(s.event, host)
    ensures s.Emit? && s.event != Ping ==>
      d.data.Some? && host.parse(d.data.value).Some? && ReadFrom(s.event, host.parse(d.data.value).value)
    ensures d.event == Some("ping") <==> s == Emit(Ping)
    ensures d.event.None? || !IsKnownName(d.event.value) ==> s == Skip
    ensures d.event != Some("ping") && (d.data.None? || d.data.value == "") ==> s == Skip
    ensures s == Fail <==>
      && d.event.Some? && IsKnownName(d.event.value) && d.event.value != "ping"
      && d.data.Some? && d.data.value != "" && host.parse(d.data.value).None?
    ensures
      && d.event.Some? && IsKnownName(d.event.value) && d.event.value != "ping"
      && d.data.Some? && d.data.value != "" && host.parse(d.data.value).Some?
      ==> s == match Payload(d.event.value, host.parse(d.data.value).value, host)
              case Some(e) => Emit(e)
              case None => Skip
  {
    if d.event.None? || d.event.value == "" then Skip
    else
      var name := d.event.value;
      if name == "ping" then Emit(Ping)
      else if !IsKnownName(name) then Skip
      else if d.data.None? || d.data.value == "" then Skip
      else
        match host.parse(d.data.value)
        case None => Fail
        case Some(v) =>
          match Payload(name, v, host)
          case None => Skip
          case Some(e) => Emit(e)
  }

  /** A payload that parses but fails its schema is skipped, and the stream goes on. */
  lemma ShapeFailureSkips(d: Decoded, host: Host)
    requires d.event.Some? && d.data.Some? && host.parse(d.data.value).Some?
    requires d.event.value != "ping"
    requires Payload(d.event.value, host.parse(d.data.value).value, host).None?
    ensures Dispatch(d, host) == Skip
  {
  }

  /* ------------------------------------------------------------------ */
  /* The event stream                                                    */
  /* ------------------------------------------------------------------ */

  /** The events yielded, and whether the stream then threw a SyntaxError. */
  datatype StreamResult = StreamResult(events: seq<ChatStreamEvent>, failed: bool)

  /**
   * streamChat over a sequence of blocks: nothing is read after a failure.
   * Each block yields at most one event, and every event yielded satisfies
   * its schema.
   */
  function Events(blocks: seq<string>, host: Host): (r: StreamResult)
    ensures |r.events| <= |blocks|
    ensures forall i :: 0 <= i < |r.events| ==> ValidEvent(r.events[i], host)
  {
    if blocks == [] then StreamResult([], false)
    else
      var prev := Events(blocks[..|blocks| - 1], host);
      if prev.failed then prev
      else
        match Dispatch(DecodeBlockAsWritten(blocks[|blocks| - 1]), host)
        case Skip => prev
        case Emit(e) => StreamResult(prev.events + [e], false)
        case Fail => StreamResult(prev.events, true)
  }

  /**
   * Events come out in block order: the events of `a + b` are those of
   * `a`, then, unless `a` ended the stream, those of `b`.
   */
  lemma {:induction false} EventsAppend(a: seq<string>, b: seq<string>, host: Host)
    ensures var ra := Events(a, host);
      var rb := Events(b, host);
      Events(a + b, host) == if ra.failed then ra else StreamResult(ra.events + rb.events, rb.failed)
    decreases |b|
  {
    if b == [] {
      assert a + b == a;
    } else {
      var b' := b[..|b| - 1];
      assert (a + b)[..|a + b| - 1] == a + b';
      assert (a + b)[|a + b| - 1] == b[|b| - 1];
      EventsAppend(a, b', host);
      var ra := Events(a, host);
      var rb' := Events(b', host);
      if !ra.failed && !rb'.failed {
        match Dispatch(DecodeBlockAsWritten(b[|b| - 1]), host)
        case Emit(e) =>
          assert ra.events + (rb'.events + [e]) == (ra.events + rb'.events) + [e];
        case _ =>
      }
    }
  }

  /** A single block yields at most its own dispatch. */
  lemma EventsOfOne(block: string, host: Host)
    ensures var r := Events([block], host);
      match Dispatch(DecodeBlockAsWritten(block), host)
      case Skip => r == StreamResult([], false)
      case Emit(e) => r == StreamResult([e], false)
      case Fail => r == StreamResult([], true)
  {
    assert [block][..0] == [];
  }

  /** After a block that is not JSON, later blocks yield nothing: the stream has ended. */
  lemma EventsStopAtFailure(a: seq<string>, b: seq<string>, host: Host)
    requires Events(a, host).failed
    ensures Events(a + b, host) == Events(a, host)
  {
    EventsAppend(a, b, host);
  }

  /** A prefix that ended the stream fixes the result of the whole. */
  lemma EventsFailedPrefix(blocks: seq<string>, n: nat, host: Host)
    requires n <= |blocks| && Events(blocks[..n], host).failed
    ensures Events(blocks, host) == Events(blocks[..n], host)
  {
    assert blocks[..n] + blocks[n..] == blocks;
    EventsStopAtFailure(blocks[..n], blocks[n..], host);
  }

  /** Reading one more block is one more dispatch. */
  lemma EventsSnoc(blocks: seq<string>, n: nat, host: Host)
    requires n < |blocks|
    ensures Events(blocks[..n + 1], host) ==
      var r := Events(blocks[..n], host);
      if r.failed then r
      else
        match Dispatch(DecodeBlockAsWritten(blocks[n]), host)
        case Skip => r
        case Emit(e) => StreamResult(r.events + [e], false)
        case Fail => StreamResult(r.events, true)
  {
    assert blocks[..n + 1][..n] == blocks[..n];
  }

  /** What fetch resolves to: the status and, unless the body is null, the text chunks it delivers. */
  datatype StreamResponse = StreamResponse(status: int, body: Option<seq<string>>)

  /** `await res.text()`: the whole body, or nothing when there is none. */
  function BodyText(res: StreamResponse): string {
    if res.body.Some? then Concat(res.body.value) else ""
  }

  /**
   * streamChat once the request is answered: a failed or bodiless response
   * throws an ApiError carrying the status and the body text (or a
   * fallback message); otherwise the blocks are decoded and dispatched in
   * order, and a payload that is not JSON ends the stream with a
   * SyntaxError after the events already yielded.
   */
  method StreamChat(res: StreamResponse, host: Host) returns (events: seq<ChatStreamEvent>, failure: Option<Thrown>)
    ensures !Http.Ok(res.status) || res.body.None? ==>
      && events == [] && failure.Some? && failure.value.Api?
      && failure.value.err.name == "ApiError" && failure.value.err.status == res.status
      && failure.value.err.message ==
           (if BodyText(res) != "" then BodyText(res) else "Chat stream failed with status " + IntToString(res.status))
      && failure.value.err.causeEnvelope.None?
    ensures Http.Ok(res.status) && res.body.Some? ==>
      var r := Events(SseBlocks(Concat(res.body.value)), host);
      && events == r.events
      && failure == (if r.failed then Some(Syntax) else None)
  {
    if !Http.Ok(res.status) || res.body.None? {
      var text := BodyText(res);
      var message := if text != "" then text else "Chat stream failed with status " + IntToString(res.status);
      var e := new ApiError(message, Some(res.status), None);
      return [], Some(Api(e));
    }
    var blocks := ParseSse(res.body.value);
    var failed;
    events, failed := DispatchAll(blocks, host);
    failure := if failed then Some(Syntax) else None;
  }

  /**
   * The `for await` loop of streamChat: each block is decoded and
   * dispatched in order; the first payload that is not JSON stops the loop.
   */
  method DispatchAll(blocks: seq<string>, host: Host) returns (events: seq<ChatStreamEvent>, failed: bool)
    ensures Events(blocks, host) == StreamResult(events, failed)
  {
    events := [];
    var n := 0;
    while n < |blocks|
      invariant 0 <= n <= |blocks|
      invariant Events(blocks[..n], host) == StreamResult(events, false)
    {
      var d := DecodeEvent(blocks[n]);
      EventsSnoc(blocks, n, host);
      var step := Dispatch(d, host);
      match step {
        case Skip =>
        case Emit(e) =>
          events := events + [e];
        case Fail =>
          EventsFailedPrefix(blocks, n + 1, host);
          return events, true;
      }
      n := n + 1;
    }
    assert blocks[..n] == blocks;
    failed := false;
  }
}
