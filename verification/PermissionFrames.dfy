/** The JSON-RPC server behind the permission tool: framing, dispatch and the
    blocking loop (baude-core/src/permission.rs). */
module PermissionFrames {
  import opened Prelude
  import opened Bytes
  import opened Json

  const CONTENT_LENGTH: Bytes := "content-length:"
  const CR: Byte := '\r'
  const LF: Byte := '\n'
  const CRLF_PAIR: Bytes := [CR, LF, CR, LF]
  const LF_PAIR: Bytes := [LF, LF]

  /** Everything the server does not compute: UTF-8 and JSON decoding, JSON
      printing, the answer to the n-th question, and which reply's write fails. */
  datatype World = World(
    utf8: Bytes -> Option<string>,
    decode: Bytes -> Option<Json>,
    print_: Json -> string,
    version: string,
    resolve: (nat, string, Json) -> string,
    writeFails: nat -> bool)

  // ----- Framing -----

  function Lower(b: Byte): Byte {
    if 'A' <= b <= 'Z' then b + ' ' else b
  }

  predicate StartsWithIgnoreCase(buf: Bytes, prefix: Bytes) {
    |buf| >= |prefix| && forall i | 0 <= i < |prefix| :: Lower(buf[i]) == Lower(prefix[i])
  }

  predicate WindowAt(buf: Bytes, i: int, pattern: Bytes) {
    0 <= i <= |buf| - |pattern| && buf[i..i + |pattern|] == pattern
  }

  /** Where the pattern first stands. */
  function Position(buf: Bytes, pattern: Bytes): (at: Option<nat>)
    ensures at.Some? ==> WindowAt(buf, at.value, pattern) && forall i | 0 <= i < at.value :: !WindowAt(buf, i, pattern)
    ensures at.None? ==> forall i :: !WindowAt(buf, i, pattern)
  {
    PositionFrom(buf, pattern, 0)
  }

  function PositionFrom(buf: Bytes, pattern: Bytes, from: nat): (at: Option<nat>)
    requires from <= |buf| && forall i | 0 <= i < from :: !WindowAt(buf, i, pattern)
    ensures at.Some? ==> WindowAt(buf, at.value, pattern) && forall i | 0 <= i < at.value :: !WindowAt(buf, i, pattern)
    ensures at.None? ==> forall i :: !WindowAt(buf, i, pattern)
    decreases |buf| - from
  {
    if WindowAt(buf, from, pattern) then Some(from)
    else if from == |buf| then None
    else PositionFrom(buf, pattern, from + 1)
  }

  /** The blank line that ends the headers: where it starts, and its length. */
  function FindSeparator(buf: Bytes): (found: Option<(nat, nat)>)
    ensures found.Some? ==> 2 <= found.value.1 && found.value.0 + found.value.1 <= |buf|
  {
    match (Position(buf, CRLF_PAIR), Position(buf, LF_PAIR))
    case (Some(c), Some(l)) => if c <= l then Some((c, 4)) else Some((l, 2))
    case (None, Some(l)) => Some((l, 2))
    case (Some(c), None) => Some((c, 4))
    case (None, None) => None
  }

  predicate IsWhitespace(c: char) {
    || '\t' <= c <= '\r' || c == ' ' || c == '\U{85}' || c == '\U{A0}' || c == '\U{1680}'
    || '\U{2000}' <= c <= '\U{200A}' || c == '\U{2028}' || c == '\U{2029}' || c == '\U{202F}' || c == '\U{205F}' || c == '\U{3000}'
  }

  function Trim(s: string): string
    decreases |s|
  {
    if s == "" then s
    else if IsWhitespace(s[0]) then Trim(s[1..])
    else if IsWhitespace(s[|s| - 1]) then Trim(s[..|s| - 1])
    else s
  }

  /** A 64-bit `usize`: an optional plus sign and at least one digit, in range. */
  function ParseUsize(s: string): Option<U64> {
    var digits := if s != "" && s[0] == '+' then s[1..] else s;
    if digits == "" || !IsDigits(digits) || Value(digits) > U64_MAX then None else Some(Value(digits))
  }

  /** The text between the first colon and the next. */
  function SecondField(header: string): Option<string> {
    var first := Index(header, ':');
    if first.None? then None
    else
      var rest := header[first.value + 1..];
      var second := Index(rest, ':');
      Some(if second.None? then rest else rest[..second.value])
  }

  function DeclaredLength(header: Bytes, w: World): Option<U64> {
    var text := w.utf8(header);
    if text.None? || SecondField(text.value).None? then None
    else ParseUsize(Trim(SecondField(text.value).value))
  }

  function ParseContentLengthFrame(buf: Bytes, w: World): (frame: Option<(Json, nat)>)
    ensures frame.Some? ==> 0 < frame.value.1 <= |buf|
  {
    var separator := FindSeparator(buf);
    if separator.None? then None
    else
      var (start, size) := separator.value;
      var length := DeclaredLength(buf[..start], w);
      if length.None? || start + size + length.value > U64_MAX then None
      else
        var end := start + size + length.value;
        if |buf| < end then None
        else
          var body := w.decode(buf[start + size..end]);
          if body.None? then None else Some((body.value, end))
  }

  /** One frame off the front of the buffer, and the bytes it took. */
  function ParseFrame(buf: Bytes, w: World): (frame: Option<(Json, nat)>)
    ensures frame.Some? ==> 0 < frame.value.1 <= |buf|
  {
    if StartsWithIgnoreCase(buf, CONTENT_LENGTH) then ParseContentLengthFrame(buf, w)
    else
      var newline := Index(buf, LF);
      if newline.None? then None
      else
        var body := w.decode(buf[..newline.value]);
        if body.None? then None else Some((body.value, newline.value + 1))
  }

  lemma WindowOnExtension(buf: Bytes, ext: Bytes, i: int, pattern: Bytes)
    requires i + |pattern| <= |buf|
    ensures WindowAt(buf + ext, i, pattern) <==> WindowAt(buf, i, pattern)
  {
    if 0 <= i { assert (buf + ext)[i..i + |pattern|] == buf[i..i + |pattern|]; }
  }

  lemma PositionIsStable(buf: Bytes, ext: Bytes, pattern: Bytes)
    ensures var p, q := Position(buf, pattern), Position(buf + ext, pattern);
      if p.Some? then q == p else q.Some? ==> q.value + |pattern| > |buf|
  {
    var p, q := Position(buf, pattern), Position(buf + ext, pattern);
    forall i | i + |pattern| <= |buf| ensures WindowAt(buf + ext, i, pattern) <==> WindowAt(buf, i, pattern) {
      WindowOnExtension(buf, ext, i, pattern);
    }
  }

  /** A separator once found stays the separator, however CRLF and LF are mixed after it. */
  lemma SeparatorIsStable(buf: Bytes, ext: Bytes)
    requires FindSeparator(buf).Some?
    ensures FindSeparator(buf + ext) == FindSeparator(buf)
  {
    PositionIsStable(buf, ext, CRLF_PAIR);
    PositionIsStable(buf, ext, LF_PAIR);
    var l, c := Position(buf, LF_PAIR), Position(buf + ext, CRLF_PAIR);
    if l.Some? && c.Some? && c.value + 4 > |buf| { PairsDoNotOverlap(buf, ext, l.value, c.value); }
  }

  lemma PairsDoNotOverlap(buf: Bytes, ext: Bytes, l: nat, c: nat)
    requires WindowAt(buf, l, LF_PAIR) && WindowAt(buf + ext, c, CRLF_PAIR) && c + 4 > |buf|
    ensures c > l
  {
    var all := buf + ext;
    assert all[c] == all[c..c + 4][0] == CR && all[c + 2] == all[c..c + 4][2] == CR;
    assert all[l] == buf[l] == buf[l..l + 2][0] == LF && all[l + 1] == buf[l + 1] == buf[l..l + 2][1] == LF;
  }

  lemma HeaderIsStable(buf: Bytes, ext: Bytes)
    requires LF in buf || |buf| >= |CONTENT_LENGTH|
    ensures StartsWithIgnoreCase(buf + ext, CONTENT_LENGTH) <==> StartsWithIgnoreCase(buf, CONTENT_LENGTH)
  {
    if |buf| < |CONTENT_LENGTH| {
      var i :| 0 <= i < |buf| && buf[i] == LF;
      assert (buf + ext)[i] == LF && Lower(LF) == LF;
      assert forall b <- CONTENT_LENGTH :: Lower(b) != LF;
      assert CONTENT_LENGTH[i] in CONTENT_LENGTH;
    } else {
      assert forall i | 0 <= i < |CONTENT_LENGTH| :: (buf + ext)[i] == buf[i];
    }
  }

  lemma NewlineIsStable(buf: Bytes, ext: Bytes)
    requires Index(buf, LF).Some?
    ensures Index(buf + ext, LF) == Index(buf, LF)
  {
    var at := Index(buf, LF).value;
    assert (buf + ext)[..at] == buf[..at];
    IndexIs(buf + ext, LF, at);
  }

  /** A frame found on a prefix of the input is the frame of the whole input. */
  lemma FrameIsStable(buf: Bytes, ext: Bytes, w: World)
    requires ParseFrame(buf, w).Some?
    ensures ParseFrame(buf + ext, w) == ParseFrame(buf, w)
  {
    hide Index, FindSeparator, StartsWithIgnoreCase, DeclaredLength;
    if StartsWithIgnoreCase(buf, CONTENT_LENGTH) {
      LongEnough(buf);
      HeaderIsStable(buf, ext);
      SeparatorIsStable(buf, ext);
      var (start, size) := FindSeparator(buf).value;
      assert (buf + ext)[..start] == buf[..start];
      var end := ParseFrame(buf, w).value.1;
      assert (buf + ext)[start + size..end] == buf[start + size..end];
    } else {
      HeaderIsStable(buf, ext);
      NewlineIsStable(buf, ext);
      var at := Index(buf, LF).value;
      assert (buf + ext)[..at] == buf[..at];
    }
  }

  lemma LongEnough(buf: Bytes)
    requires StartsWithIgnoreCase(buf, CONTENT_LENGTH)
    ensures |buf| >= |CONTENT_LENGTH|
  {
  }

  // ----- Dispatch -----

  const APPROVE_TOOL := "approve"
  const METHOD_NOT_FOUND := -32601
  const INVALID_PARAMS := -32602

  function TextOf(value: Json): string {
    if value.Str? then value.text else ""
  }

  function FirstPresent(a: Json, b: Json, c: Json): Json {
    if a != Null then a else if b != Null then b else c
  }

  /** The tool and input a call asks about. */
  function ParseToolCall(params: Json): (string, Json) {
    (TextOf(params.At("tool_name")), FirstPresent(params.At("input"), params.At("parameters"), params.At("tool_input")))
  }

  function Permission(behavior: string, input: Json): Json {
    if behavior == "allow" then Obj(map["behavior" := Str("allow"), "updatedInput" := input])
    else Obj(map["behavior" := Str("deny"), "message" := Str("denied")])
  }

  function ApproveResult(behavior: string, input: Json, w: World): Json {
    Obj(map["content" := Arr([Obj(map["type" := Str("text"), "text" := Str(w.print_(Permission(behavior, input)))])])])
  }

  function Response(id: Json, result: Json): Json {
    Obj(map["jsonrpc" := Str("2.0"), "id" := id, "result" := result])
  }

  function Failure(id: Json, code: int, message: string): Json {
    Obj(map["jsonrpc" := Str("2.0"), "id" := id, "error" := Obj(map["code" := Int(code), "message" := Str(message)])])
  }

  const ToolDescriptor: Json := Obj(map[
    "name" := Str(APPROVE_TOOL),
    "description" := Str("Route a tool-permission decision through baude (phone approval)."),
    "inputSchema" := Obj(map[
      "type" := Str("object"),
      "properties" := Obj(map[
        "tool_name" := Obj(map["type" := Str("string")]),
        "input" := Obj(map["type" := Str("object")]),
        "tool_use_id" := Obj(map["type" := Str("string")])])])])

  function InitializeResult(version: string): Json {
    Obj(map["protocolVersion" := Str("2024-11-05"),
            "capabilities" := Obj(map["tools" := Obj(map[])]),
            "serverInfo" := Obj(map["name" := Str("baude"), "version" := Str(version)])])
  }

  predicate HasId(request: Json) {
    request.Obj? && "id" in request.fields
  }

  /** The question a request puts to the user, if it puts one. */
  function Question(request: Json): Option<(string, Json)> {
    if HasId(request) && request.At("method") == Str("tools/call") && request.At("params").At("name") == Str(APPROVE_TOOL)
    then Some(ParseToolCall(request.At("params").At("arguments"))) else None
  }

  /** The reply to one request, given the user's decision if it asks for one. */
  function Dispatch(request: Json, decision: string, w: World): Option<Json> {
    if !HasId(request) then None
    else
      var id := request.At("id");
      var method_ := TextOf(request.At("method"));
      if method_ == "initialize" then Some(Response(id, InitializeResult(w.version)))
      else if method_ == "tools/list" then Some(Response(id, Obj(map["tools" := Arr([ToolDescriptor])])))
      else if method_ == "tools/call" then
        if TextOf(request.At("params").At("name")) != APPROVE_TOOL then Some(Failure(id, INVALID_PARAMS, "unknown tool"))
        else Some(Response(id, ApproveResult(decision, ParseToolCall(request.At("params").At("arguments")).1, w)))
      else Some(Failure(id, METHOD_NOT_FOUND, "method not found"))
  }

  /** Every reply answers its own request and is either a result or an error,
      never both; a request without an id is a notification and gets none
      (section 4.1 of the JSON-RPC 2.0 Specification). */
  lemma RepliesAreAddressed(request: Json, decision: string, w: World)
    ensures Dispatch(request, decision, w).Some? <==> HasId(request)
    ensures !HasId(request) ==> Question(request).None?
    ensures HasId(request) ==>
      var reply := Dispatch(request, decision, w).value;
      && reply.Obj? && reply.At("id") == request.At("id") && reply.At("jsonrpc") == Str("2.0")
      && ("error" in reply.fields <==> "result" !in reply.fields)
      && ("error" in reply.fields ==> reply.At("error").At("code") in {Int(-32601), Int(-32602)} && reply.At("error").At("message").Str?)
      && (reply.At("error").At("code") == Int(-32601)
        <==> request.At("method") !in {Str("initialize"), Str("tools/list"), Str("tools/call")})
      && (reply.At("error").At("code") == Int(-32602)
        <==> (request.At("method") == Str("tools/call") && Question(request).None?))
  {
    hide InitializeResult, ApproveResult, ParseToolCall;
  }

  /** Deny by default: only the exact word `allow` permits, it permits the very
      input asked about, and anything else denies and carries no input. */
  lemma OnlyAllowPermits(request: Json, decision: string, w: World)
    requires Question(request).Some?
    ensures exists inner ::
      && Dispatch(request, decision, w) == Some(Response(request.At("id"), Obj(map["content" := Arr([Obj(map["type" := Str("text"), "text" := Str(w.print_(inner))])])])))
      && (inner.At("behavior") == Str("allow") <==> decision == "allow")
      && (inner.At("behavior") == Str("deny") <==> decision != "allow")
      && inner.At("updatedInput") == (if decision == "allow" then Question(request).value.1 else Null)
      && (decision != "allow" ==> inner.At("message") == Str("denied"))
  {
    var inner := Permission(decision, Question(request).value.1);
    assert TextOf(request.At("method")) == "tools/call" && TextOf(request.At("params").At("name")) == APPROVE_TOOL;
    assert Dispatch(request, decision, w) == Some(Response(request.At("id"), ApproveResult(decision, Question(request).value.1, w)));
  }

  /** The two methods of the handshake answer what they must: the protocol and
      the server, and the one tool with the fields it reads. */
  lemma HandshakeAnswers(request: Json, decision: string, w: World)
    requires HasId(request)
    ensures request.At("method") == Str("initialize") ==>
      var result := Dispatch(request, decision, w).value.At("result");
      && result.At("protocolVersion") == Str("2024-11-05") && result.At("capabilities").At("tools").Obj?
      && result.At("serverInfo").At("name") == Str("baude") && result.At("serverInfo").At("version") == Str(w.version)
    ensures request.At("method") == Str("tools/list") ==>
      var tools := Dispatch(request, decision, w).value.At("result").At("tools");
      && tools.Arr? && |tools.items| == 1 && tools.items[0].At("name") == Str("approve")
      && var schema := tools.items[0].At("inputSchema");
        && schema.At("type") == Str("object") && schema.At("properties").At("tool_name").At("type") == Str("string")
        && schema.At("properties").At("input").At("type") == Str("object") && schema.At("properties").At("tool_use_id").At("type") == Str("string")
  {
    hide ApproveResult, ParseToolCall, Failure, InitializeResult;
    InitializeSays(w.version);
    ToolIsDescribed();
    assert "tools/list" != "initialize" by { assert "tools/list"[0] != "initialize"[0]; }
  }

  lemma InitializeSays(version: string)
    ensures var result := InitializeResult(version);
      && result.At("protocolVersion") == Str("2024-11-05") && result.At("capabilities").At("tools").Obj?
      && result.At("serverInfo").At("name") == Str("baude") && result.At("serverInfo").At("version") == Str(version)
  {
  }

  lemma ToolIsDescribed()
    ensures ToolDescriptor.At("name") == Str("approve")
    ensures var schema := ToolDescriptor.At("inputSchema");
      && schema.At("type") == Str("object") && schema.At("properties").At("tool_name").At("type") == Str("string")
      && schema.At("properties").At("input").At("type") == Str("object") && schema.At("properties").At("tool_use_id").At("type") == Str("string")
  {
  }

  /** What a question asks: the named tool, with the input under the first name that has one. */
  lemma QuestionReads(request: Json)
    requires Question(request).Some?
    ensures request.At("method") == Str("tools/call") && request.At("params").At("name") == Str("approve")
    ensures var (tool, input), arguments := Question(request).value, request.At("params").At("arguments");
      && tool == (if arguments.At("tool_name").Str? then arguments.At("tool_name").text else "")
      && input == if arguments.At("input") != Null then arguments.At("input")
                  else if arguments.At("parameters") != Null then arguments.At("parameters")
                  else arguments.At("tool_input")
  {
  }

  // ----- The loop -----

  /** The server between reads: the bytes held, the replies written, and how
      many questions were asked; or closed because a write failed. */
  datatype Server =
    | Open(buf: Bytes, replies: seq<Json>, asked: nat)
    | Closed(replies: seq<Json>, asked: nat)

  function Decision(request: Json, asked: nat, w: World): string {
    var q := Question(request);
    if q.None? then "" else w.resolve(asked, q.value.0, q.value.1)
  }

  /** Serve one request whose frame is already off the buffer. */
  function Serve(rest: Bytes, replies: seq<Json>, asked: nat, request: Json, w: World): Server {
    var reply := Dispatch(request, Decision(request, asked, w), w);
    var asked' := if Question(request).Some? then asked + 1 else asked;
    if reply.None? then Open(rest, replies, asked')
    else if w.writeFails(|replies|) then Closed(replies, asked')
    else Open(rest, replies + [reply.value], asked')
  }

  /** Serve every complete frame held. */
  function Drain(s: Server, w: World): Server
    decreases if s.Open? then |s.buf| else 0, 0
  {
    if s.Closed? || ParseFrame(s.buf, w).None? then s
    else
      var (request, taken) := ParseFrame(s.buf, w).value;
      Drain(Serve(s.buf[taken..], s.replies, s.asked, request, w), w)
  }

  function Receive(s: Server, bytes: Bytes): Server {
    if s.Closed? then s else s.(buf := s.buf + bytes)
  }

  /** Draining early changes nothing. */
  lemma {:induction false} DrainAppend(s: Server, bytes: Bytes, w: World)
    ensures Drain(Receive(Drain(s, w), bytes), w) == Drain(Receive(s, bytes), w)
    decreases if s.Open? then |s.buf| else 0, 0
  {
    hide ParseFrame, Dispatch, Question;
    if s.Open? && ParseFrame(s.buf, w).Some? {
      var (request, taken) := ParseFrame(s.buf, w).value;
      FrameIsStable(s.buf, bytes, w);
      assert (s.buf + bytes)[taken..] == s.buf[taken..] + bytes;
      var next := Serve(s.buf[taken..], s.replies, s.asked, request, w);
      assert Receive(next, bytes) == Serve((s.buf + bytes)[taken..], s.replies, s.asked, request, w);
      DrainAppend(next, bytes, w);
    }
  }

  /** A non-empty read; an empty one is the end of the input. */
  type Chunk = b: Bytes | 0 < |b| <= 4096 witness ['x']

  function Concat(chunks: seq<Chunk>): Bytes {
    if chunks == [] then [] else chunks[0] + Concat(chunks[1..])
  }

  const STARTED := Open([], [], 0)

  /** However the input is cut into reads, the server does what it would have
      done with all of it at once. */
  method RunPermissionMcp(chunks: seq<Chunk>, w: World) returns (replies: seq<Json>, asked: nat)
    ensures var whole := Drain(Receive(STARTED, Concat(chunks)), w);
      replies == whole.replies && asked == whole.asked
  {
    hide ParseFrame, Dispatch, Question;
    var buf: Bytes := [];
    replies, asked := [], 0;
    var next := 0;
    ghost var whole := Drain(Receive(STARTED, Concat(chunks)), w);
    assert chunks[0..] == chunks;
    while true
      invariant 0 <= next <= |chunks|
      invariant Drain(Receive(Open(buf, replies, asked), Concat(chunks[next..])), w) == whole
      decreases |chunks| - next
    {
      ghost var rest := Concat(chunks[next..]);
      var frame := ParseFrame(buf, w);
      while frame.Some?
        invariant frame == ParseFrame(buf, w)
        invariant Drain(Receive(Open(buf, replies, asked), rest), w) == whole
        decreases |buf|
      {
        var (request, taken) := frame.value;
        ServeOne(buf, replies, asked, rest, w);
        buf := buf[taken..];
        var decision := "";
        var question := Question(request);
        if question.Some? {
          decision := w.resolve(asked, question.value.0, question.value.1);
          asked := asked + 1;
        }
        var reply := Dispatch(request, decision, w);
        if reply.Some? {
          if w.writeFails(|replies|) { return; }
          replies := replies + [reply.value];
        }
        frame := ParseFrame(buf, w);
      }
      if next == |chunks| {
        assert buf + rest == buf;
        return;
      }
      assert buf + rest == (buf + chunks[next]) + Concat(chunks[next + 1..]);
      buf := buf + chunks[next];
      next := next + 1;
    }
  }

  lemma ServeOne(buf: Bytes, replies: seq<Json>, asked: nat, rest: Bytes, w: World)
    requires ParseFrame(buf, w).Some?
    ensures var (request, taken) := ParseFrame(buf, w).value;
      Drain(Receive(Open(buf, replies, asked), rest), w)
        == Drain(Receive(Serve(buf[taken..], replies, asked, request, w), rest), w)
  {
    hide ParseFrame, Dispatch, Question;
    var s := Open(buf, replies, asked);
    var (request, taken) := ParseFrame(buf, w).value;
    DrainAppend(s, rest, w);
    DrainAppend(Serve(buf[taken..], replies, asked, request, w), rest, w);
  }

  // ----- What a whole run answers -----

  /** The requests on the wire, up to the first frame that never completes or decodes. */
  function Requests(bytes: Bytes, w: World): seq<Json>
    decreases |bytes|
  {
    if ParseFrame(bytes, w).None? then []
    else
      var (request, taken) := ParseFrame(bytes, w).value;
      [request] + Requests(bytes[taken..], w)
  }

  /** The replies owed to requests, in order; the n-th question gets the n-th decision. */
  function Answers(requests: seq<Json>, asked: nat, w: World): seq<Json>
    decreases requests
  {
    if requests == [] then []
    else
      var reply := Dispatch(requests[0], Decision(requests[0], asked, w), w);
      (if reply.Some? then [reply.value] else [])
        + Answers(requests[1..], if Question(requests[0]).Some? then asked + 1 else asked, w)
  }

  function Ids(requests: seq<Json>): seq<Json> {
    if requests == [] then []
    else (if HasId(requests[0]) then [requests[0].At("id")] else []) + Ids(requests[1..])
  }

  /** One reply for each request that has an id, in order, and none for the others. */
  lemma {:induction false} AnswersMatchIds(requests: seq<Json>, asked: nat, w: World)
    ensures var answers, ids := Answers(requests, asked, w), Ids(requests);
      |answers| == |ids| && forall i | 0 <= i < |ids| :: answers[i].At("id") == ids[i]
    decreases requests
  {
    hide Dispatch, Question;
    if requests != [] {
      RepliesAreAddressed(requests[0], Decision(requests[0], asked, w), w);
      AnswersMatchIds(requests[1..], if Question(requests[0]).Some? then asked + 1 else asked, w);
    }
  }

  /** The requests that put a question to the user. */
  function Questions(requests: seq<Json>): seq<Json> {
    if requests == [] then []
    else (if Question(requests[0]).Some? then [requests[0]] else []) + Questions(requests[1..])
  }

  /** What one request is answered, and how many questions it asks. */
  function Reply(request: Json, asked: nat, w: World): seq<Json> {
    var reply := Dispatch(request, Decision(request, asked, w), w);
    if reply.Some? then [reply.value] else []
  }

  lemma AnswersUnfold(request: Json, rest: seq<Json>, asked: nat, w: World)
    ensures Answers([request] + rest, asked, w)
      == Reply(request, asked, w) + Answers(rest, asked + |Questions([request])|, w)
    ensures Questions([request] + rest) == Questions([request]) + Questions(rest)
  {
    hide Dispatch, Question, Decision;
    assert ([request] + rest)[0] == request && ([request] + rest)[1..] == rest && [request][1..] == [];
  }

  lemma {:induction false} AnswersConcat(a: seq<Json>, b: seq<Json>, asked: nat, w: World)
    ensures Answers(a + b, asked, w) == Answers(a, asked, w) + Answers(b, asked + |Questions(a)|, w)
    decreases a
  {
    hide Reply, Answers, Questions;
    if a == [] {
      assert a + b == b;
      NothingToAnswer(asked, w);
    } else {
      AnswersConcat(a[1..], b, asked + |Questions([a[0]])|, w);
      AnswersUnfold(a[0], a[1..] + b, asked, w);
      AnswersUnfold(a[0], a[1..], asked, w);
      assert a == [a[0]] + a[1..] && a + b == [a[0]] + (a[1..] + b);
    }
  }

  lemma NothingToAnswer(asked: nat, w: World)
    ensures Answers([], asked, w) == [] && Questions([]) == []
  {
  }

  /** The n-th question of a run is answered by the n-th decision, about its own tool and input. */
  lemma EachQuestionGetsItsDecision(before: seq<Json>, q: Json, after: seq<Json>, asked: nat, w: World)
    requires Question(q).Some?
    ensures var n := asked + |Questions(before)|;
      var (tool, input) := Question(q).value;
      Dispatch(q, w.resolve(n, tool, input), w).Some?
      && Answers(before + [q] + after, asked, w)
        == Answers(before, asked, w) + [Dispatch(q, w.resolve(n, tool, input), w).value] + Answers(after, n + 1, w)
  {
    hide Dispatch, Question, Answers;
    var n := asked + |Questions(before)|;
    assert before + [q] + after == before + ([q] + after);
    AnswersConcat(before, [q] + after, asked, w);
    AnswersUnfold(q, after, n, w);
    RepliesAreAddressed(q, Decision(q, n, w), w);
    assert [q][1..] == [];
  }

  /** What a server still owes, after what it has written. */
  function Owed(s: Server, w: World): seq<Json>
    requires s.Open?
  {
    s.replies + Answers(Requests(s.buf, w), s.asked, w)
  }

  lemma OwedUnfolds(s: Server, w: World)
    requires s.Open?
    ensures match ParseFrame(s.buf, w)
      case None => Owed(s, w) == s.replies
      case Some((request, taken)) =>
        var next := Serve(s.buf[taken..], s.replies, s.asked, request, w);
        if next.Open? then Owed(next, w) == Owed(s, w)
        else next.replies == s.replies && w.writeFails(|s.replies|) && s.replies <= Owed(s, w) && |s.replies| < |Owed(s, w)|
    ensures s.replies <= Owed(s, w)
  {
    hide ParseFrame, Dispatch, Question, Decision;
    if ParseFrame(s.buf, w).Some? {
      var (request, taken) := ParseFrame(s.buf, w).value;
      var reply := Dispatch(request, Decision(request, s.asked, w), w);
      var more := Answers(Requests(s.buf[taken..], w), if Question(request).Some? then s.asked + 1 else s.asked, w);
      assert Requests(s.buf, w)[1..] == Requests(s.buf[taken..], w);
      if reply.Some? { assert s.replies + ([reply.value] + more) == (s.replies + [reply.value]) + more; }
      else { assert [] + more == more; }
    }
  }

  /** A write that a run got past did not fail. */
  lemma ServeWrites(rest: Bytes, replies: seq<Json>, asked: nat, request: Json, w: World)
    ensures var next := Serve(rest, replies, asked, request, w);
      next.Open? ==> next.buf == rest && |replies| <= |next.replies| <= |replies| + 1 && (|next.replies| > |replies| ==> !w.writeFails(|replies|))
  {
    hide Dispatch, Question, Decision;
  }

  /** What was written is what is owed, cut off at the first write that fails. */
  lemma {:induction false} DrainAnswers(s: Server, w: World)
    requires s.Open?
    ensures var owed := Owed(s, w);
      && Drain(s, w).replies <= owed
      && (forall n | |s.replies| <= n < |Drain(s, w).replies| :: !w.writeFails(n))
      && (Drain(s, w).Open? ==> Drain(s, w).replies == owed)
      && (Drain(s, w).Closed? ==> w.writeFails(|Drain(s, w).replies|) && |Drain(s, w).replies| < |owed|)
    decreases |s.buf|
  {
    hide ParseFrame, Serve, Owed;
    OwedUnfolds(s, w);
    if ParseFrame(s.buf, w).Some? {
      var (request, taken) := ParseFrame(s.buf, w).value;
      ServeWrites(s.buf[taken..], s.replies, s.asked, request, w);
      var next := Serve(s.buf[taken..], s.replies, s.asked, request, w);
      if next.Open? { DrainAnswers(next, w); }
    }
  }

  // ----- What clients send -----

  /** A line, or a header block, a blank line of either kind, and the body. */
  datatype Framed = Line(body: Bytes) | Headed(header: Bytes, crlf: bool, body: Bytes) {
    predicate Valid(w: World) {
      && w.decode(body).Some?
      && if Line? then LF !in body && !StartsWithIgnoreCase(body, CONTENT_LENGTH)
         else
           && StartsWithIgnoreCase(header, CONTENT_LENGTH) && NoBlankLine(header)
           && DeclaredLength(header, w) == Some(|body|) && |header| + |Separator()| + |body| <= U64_MAX
    }

    function Separator(): Bytes
      requires Headed?
    {
      if crlf then CRLF_PAIR else LF_PAIR
    }

    function Wire(): Bytes {
      if Line? then body + [LF] else header + Separator() + body
    }
  }

  /** No blank line begins in the block, whatever follows it. */
  predicate NoBlankLine(header: Bytes) {
    forall i | 0 <= i < |header| ::
      && (header[i] == CR ==> i + 2 < |header| && header[i + 2] != CR)
      && (header[i] == LF ==> i + 1 < |header| && header[i + 1] != LF)
  }

  function Wire(frames: seq<Framed>): Bytes {
    if frames == [] then [] else frames[0].Wire() + Wire(frames[1..])
  }

  predicate AllValid(frames: seq<Framed>, w: World) {
    forall i | 0 <= i < |frames| :: frames[i].Valid(w)
  }

  function Bodies(frames: seq<Framed>, w: World): (bodies: seq<Json>)
    requires AllValid(frames, w)
    ensures |bodies| == |frames| && forall i | 0 <= i < |frames| :: w.decode(frames[i].body) == Some(bodies[i])
  {
    if frames == [] then [] else [w.decode(frames[0].body).value] + Bodies(frames[1..], w)
  }

  /** ASCII decodes to itself. */
  ghost predicate AsciiIsUtf8(w: World) {
    forall b: Bytes | (forall c <- b :: c as int < 128) :: w.utf8(b) == Some(b)
  }

  lemma {:induction false} TrimDigits(digits: string)
    requires digits != "" && IsDigits(digits)
    ensures Trim([' '] + digits) == digits
  {
    assert ([' '] + digits)[1..] == digits;
  }

  const NAME: Bytes := "Content-Length"

  /** The header block clients print. */
  function Standard(length: nat): Bytes {
    NAME + [':'] + ([' '] + Decimal(length))
  }

  lemma StandardText(length: nat)
    ensures forall c <- Standard(length) :: c as int < 128 && c != CR && c != LF
    ensures StartsWithIgnoreCase(Standard(length), CONTENT_LENGTH) && NoBlankLine(Standard(length))
  {
    hide Decimal;
    DecimalIsSolid(length);
    assert forall i | 0 <= i < |CONTENT_LENGTH| :: Standard(length)[i] == (NAME + [':'])[i];
    assert forall i | 0 <= i < |Standard(length)| :: Standard(length)[i] in Standard(length);
  }

  lemma HeaderField(digits: Bytes)
    requires forall c <- digits :: '0' <= c <= '9'
    ensures SecondField(NAME + [':'] + ([' '] + digits)) == Some([' '] + digits)
  {
    hide Index;
    var rest := [' '] + digits;
    var header := NAME + [':'] + rest;
    assert header[..|NAME|] == NAME && header[|NAME| + 1..] == rest;
    IndexIs(header, ':', |NAME|);
    assert ':' !in rest;
  }

  /** What clients print declares the length they meant, and makes a valid frame. */
  lemma StandardIsValid(body: Bytes, w: World)
    requires AsciiIsUtf8(w) && w.decode(body).Some? && |Standard(|body|)| + 4 + |body| <= U64_MAX
    ensures Headed(Standard(|body|), true, body).Valid(w)
  {
    hide Decimal, Trim, SecondField, StartsWithIgnoreCase, NoBlankLine;
    var digits := Decimal(|body|);
    StandardText(|body|);
    DecimalIsSolid(|body|);
    HeaderField(digits);
    TrimDigits(digits);
    ValueOfDecimal(|body|);
    assert digits[0] in digits;
  }

  lemma PairsMean(all: Bytes, i: nat)
    ensures WindowAt(all, i, CRLF_PAIR) ==> i + 4 <= |all| && all[i] == CR && all[i + 2] == CR
    ensures WindowAt(all, i, LF_PAIR) ==> i + 2 <= |all| && all[i] == LF && all[i + 1] == LF
  {
    if WindowAt(all, i, CRLF_PAIR) { assert all[i] == all[i..i + 4][0] && all[i + 2] == all[i..i + 4][2]; }
    if WindowAt(all, i, LF_PAIR) { assert all[i] == all[i..i + 2][0] && all[i + 1] == all[i..i + 2][1]; }
  }

  lemma HeaderSeparator(header: Bytes, crlf: bool, rest: Bytes)
    requires NoBlankLine(header)
    ensures FindSeparator(header + (if crlf then CRLF_PAIR else LF_PAIR) + rest) == Some((|header|, if crlf then 4 else 2))
  {
    hide NoBlankLine, Position;
    var separator := if crlf then CRLF_PAIR else LF_PAIR;
    var all := header + separator + rest;
    assert all[|header|..|header| + |separator|] == separator && WindowAt(all, |header|, separator);
    assert all[|header|] == separator[0];
    forall i | 0 <= i < |header| ensures !WindowAt(all, i, CRLF_PAIR) && !WindowAt(all, i, LF_PAIR) {
      NoPairWithin(header, all, i);
    }
    PairsMean(all, |header|);
    assert Position(all, separator) == Some(|header|);
  }

  lemma NoPairWithin(header: Bytes, all: Bytes, i: nat)
    requires NoBlankLine(header) && header <= all && i < |header|
    ensures !WindowAt(all, i, CRLF_PAIR) && !WindowAt(all, i, LF_PAIR)
  {
    hide WindowAt;
    PairsMean(all, i);
    assert all[i] == header[i];
  }

  lemma HeadedReadsBack(f: Framed, rest: Bytes, w: World)
    requires f.Headed? && f.Valid(w)
    ensures ParseFrame(f.Wire() + rest, w) == Some((w.decode(f.body).value, |f.Wire()|))
  {
    hide FindSeparator, StartsWithIgnoreCase, DeclaredLength, NoBlankLine;
    var header, separator := f.header, f.Separator();
    var all := f.Wire() + rest;
    LongEnough(header);
    HeaderIsStable(header, separator + f.body + rest);
    assert all == header + (separator + f.body + rest);
    HeaderSeparator(header, f.crlf, f.body + rest);
    assert all == header + separator + (f.body + rest);
    assert all[..|header|] == header;
    assert all[|header| + |separator|..|header| + |separator| + |f.body|] == f.body;
  }

  lemma LineReadsBack(f: Framed, rest: Bytes, w: World)
    requires f.Line? && f.Valid(w)
    ensures ParseFrame(f.Wire() + rest, w) == Some((w.decode(f.body).value, |f.Wire()|))
  {
    var all := f.Wire() + rest;
    HeaderIsStable(f.body + [LF], rest);
    LineIsNoHeader(f.body);
    assert all[..|f.body|] == f.body;
    IndexIs(all, LF, |f.body|);
  }

  lemma LineIsNoHeader(line: Bytes)
    requires !StartsWithIgnoreCase(line, CONTENT_LENGTH)
    ensures !StartsWithIgnoreCase(line + [LF], CONTENT_LENGTH)
  {
    if |line| < |CONTENT_LENGTH| == |line| + 1 {
      assert (line + [LF])[|line|] == LF;
    }
  }

  // ----- Which header blocks declare a length -----

  predicate Blank(s: string) {
    forall i | 0 <= i < |s| :: IsWhitespace(s[i])
  }

  lemma {:induction false} TrimSplits(s: string) returns (left: string, right: string)
    ensures s == left + Trim(s) + right && Blank(left) && Blank(right)
    ensures Trim(s) != "" ==> !IsWhitespace(Trim(s)[0]) && !IsWhitespace(Trim(s)[|Trim(s)| - 1])
    decreases |s|
  {
    hide IsWhitespace;
    left, right := "", "";
    if s != "" && IsWhitespace(s[0]) {
      left, right := TrimSplits(s[1..]);
      left := [s[0]] + left;
    } else if s != "" && IsWhitespace(s[|s| - 1]) {
      left, right := TrimSplits(s[..|s| - 1]);
      right := right + [s[|s| - 1]];
    }
  }

  lemma {:induction false} TrimPadded(left: string, core: string, right: string)
    requires Blank(left) && Blank(right)
    requires core != "" && !IsWhitespace(core[0]) && !IsWhitespace(core[|core| - 1])
    ensures Trim(left + core + right) == core
    decreases |left| + |right|
  {
    hide IsWhitespace;
    var s := left + core + right;
    if left != "" {
      assert s[1..] == left[1..] + core + right;
      TrimPadded(left[1..], core, right);
    } else if right != "" {
      assert s[..|s| - 1] == left + core + right[..|right| - 1] && s[|s| - 1] == right[|right| - 1];
      TrimPadded(left, core, right[..|right| - 1]);
    } else {
      assert s == core;
    }
  }

  lemma SecondFieldIs(name: string, field: string, more: string)
    requires ':' !in name && ':' !in field && (more == "" || more[0] == ':')
    ensures SecondField(name + ":" + field + more) == Some(field)
  {
    hide Index;
    var text, rest := name + ":" + field + more, field + more;
    assert text[..|name|] == name && text[|name|] == ':' && text[|name| + 1..] == rest;
    IndexIs(text, ':', |name|);
    if more == "" {
      assert rest == field;
    } else {
      assert rest[..|field|] == field && rest[|field|] == ':';
      IndexIs(rest, ':', |field|);
    }
  }

  lemma SecondFieldSplits(text: string) returns (name: string, more: string)
    requires SecondField(text).Some?
    ensures text == name + ":" + SecondField(text).value + more
    ensures ':' !in name && ':' !in SecondField(text).value && (more == "" || more[0] == ':')
  {
    hide Index;
    var first := Index(text, ':').value;
    name := text[..first];
    var rest := text[first + 1..];
    assert text == name + ":" + rest;
    var second := Index(rest, ':');
    if second.None? {
      more := "";
      assert rest == rest + more && SecondField(text).value == rest;
    } else {
      more := rest[second.value..];
      assert rest == rest[..second.value] + more && SecondField(text).value == rest[..second.value];
    }
    assert name + ":" + (SecondField(text).value + more) == name + ":" + SecondField(text).value + more;
  }

  lemma NumeralsArePlain(number: string)
    requires ParseUsize(number).Some?
    ensures number != "" && forall i | 0 <= i < |number| :: !IsWhitespace(number[i]) && number[i] != ':' && number[i] != LF
  {
    var digits := if number[0] == '+' then number[1..] else number;
    forall i | 0 <= i < |number| ensures number[i] == '+' || '0' <= number[i] <= '9' {
      if number[0] == '+' && i > 0 { assert number[i] == digits[i - 1]; }
    }
  }

  /** A name, a colon, then nothing but a number with blanks around it, up to the end or to another colon. */
  predicate Declares(text: string, name: string, left: string, number: string, right: string, more: string) {
    && text == name + ":" + (left + number + right) + more
    && ':' !in name && Blank(left) && Blank(right) && ParseUsize(number).Some? && (more == "" || more[0] == ':')
  }

  /** A header block is read exactly when it has that form, and then it declares that number. */
  lemma HeaderIsReadExactly(header: Bytes, w: World, n: U64)
    ensures DeclaredLength(header, w) == Some(n) <==>
      (w.utf8(header).Some? && exists name, left, number, right, more ::
        Declares(w.utf8(header).value, name, left, number, right, more) && ParseUsize(number) == Some(n))
  {
    hide SecondField, Trim, ParseUsize;
    if DeclaredLength(header, w) == Some(n) {
      var text := w.utf8(header).value;
      var name, more := SecondFieldSplits(text);
      var left, right := TrimSplits(SecondField(text).value);
      assert Declares(text, name, left, Trim(SecondField(text).value), right, more);
    }
    if w.utf8(header).Some? {
      var text := w.utf8(header).value;
      forall name, left, number, right, more | Declares(text, name, left, number, right, more) && ParseUsize(number) == Some(n)
        ensures DeclaredLength(header, w) == Some(n)
      {
        NumeralsArePlain(number);
        assert ':' !in left + number + right;
        SecondFieldIs(name, left + number + right, more);
        TrimPadded(left, number, right);
      }
    }
  }

  /** So a block with another header line after the length is never read. */
  lemma AnotherHeaderIsNotRead(header: Bytes, w: World, name: string, value: string, next: string, more: string)
    requires w.utf8(header) == Some(name + ":" + (value + [LF] + next) + more)
    requires ':' !in name && ':' !in value && ':' !in next && !Blank(value) && !Blank(next) && (more == "" || more[0] == ':')
    ensures DeclaredLength(header, w).None?
  {
    hide SecondField, Trim, ParseUsize;
    var field := value + [LF] + next;
    SecondFieldIs(name, field, more);
    var left, right := TrimSplits(field);
    BreakIsKept(value, next, left, Trim(field), right);
    if ParseUsize(Trim(field)).Some? { NumeralsArePlain(Trim(field)); }
  }

  lemma BreakIsKept(value: string, next: string, left: string, core: string, right: string)
    requires value + [LF] + next == left + core + right && Blank(left) && Blank(right) && !Blank(value) && !Blank(next)
    ensures LF in core
  {
    var field := value + [LF] + next;
    var i :| 0 <= i < |value| && !IsWhitespace(value[i]);
    var j :| 0 <= j < |next| && !IsWhitespace(next[j]);
    assert field[i] == value[i] && field[|value| + 1 + j] == next[j] && field[|value|] == LF;
    assert forall k | 0 <= k < |left| :: field[k] == left[k];
    assert forall k | |left| + |core| <= k < |field| :: field[k] == right[k - |left| - |core|];
    assert core[|value| - |left|] == field[|value|];
  }

  /** The server reads back every frame a client sent, in either framing and any mixture. */
  lemma {:induction false} EveryFrameIsRead(frames: seq<Framed>, w: World)
    requires AllValid(frames, w)
    ensures Requests(Wire(frames), w) == Bodies(frames, w)
  {
    hide ParseFrame, Framed.Valid, Framed.Wire;
    if frames != [] {
      var first, rest := frames[0], Wire(frames[1..]);
      if first.Line? { LineReadsBack(first, rest, w); } else { HeadedReadsBack(first, rest, w); }
      assert (first.Wire() + rest)[|first.Wire()|..] == rest;
      EveryFrameIsRead(frames[1..], w);
    } else {
      NothingToRead(w);
    }
  }

  lemma NothingToRead(w: World)
    ensures ParseFrame([], w).None?
  {
  }

  /** A client that frames well, however it flushes, gets exactly the replies
      owed to its requests, in order, for as long as writing works. */
  lemma WellFramedIsServed(frames: seq<Framed>, w: World)
    requires AllValid(frames, w)
    ensures var owed := Answers(Bodies(frames, w), 0, w);
      var served := Drain(Receive(STARTED, Wire(frames)), w);
      && served.replies <= owed
      && (served.replies == owed || w.writeFails(|served.replies|))
  {
    hide Drain, Answers, Requests, Bodies, AllValid;
    EveryFrameIsRead(frames, w);
    assert [] + Wire(frames) == Wire(frames);
    DrainAnswers(Open(Wire(frames), [], 0), w);
    assert [] + Answers(Bodies(frames, w), 0, w) == Answers(Bodies(frames, w), 0, w);
  }

  /** A complete line that does not decode is never skipped: the server waits on
      it whatever follows. One that decodes is served and the rest goes on. */
  lemma UndecodableLineBlocks(line: Bytes, rest: Bytes, replies: seq<Json>, asked: nat, w: World)
    requires LF !in line && !StartsWithIgnoreCase(line, CONTENT_LENGTH)
    ensures var s := Open(line + [LF] + rest, replies, asked);
      if w.decode(line).None? then Drain(s, w) == s
      else Drain(s, w) == Drain(Serve(rest, replies, asked, w.decode(line).value, w), w)
  {
    hide Dispatch, Question;
    var all := line + [LF] + rest;
    if w.decode(line).Some? {
      LineReadsBack(Line(line), rest, w);
      assert all[|line| + 1..] == rest;
    } else {
      LineIsNoHeader(line);
      HeaderIsStable(line + [LF], rest);
      assert all[..|line|] == line;
      IndexIs(all, LF, |line|);
    }
  }

  /** Where a headed frame ends, once its headers are complete and name a length in range. */
  function FrameEnd(buf: Bytes, w: World): Option<nat> {
    var separator := FindSeparator(buf);
    if separator.None? then None
    else
      var (start, size) := separator.value;
      var length := DeclaredLength(buf[..start], w);
      if length.None? || start + size + length.value > U64_MAX then None else Some(start + size + length.value)
  }

  /** The body of a headed frame that has arrived in full. */
  function HeadedBody(buf: Bytes, w: World): Option<Json>
    requires FindSeparator(buf).Some? && FrameEnd(buf, w).Some? && FrameEnd(buf, w).value <= |buf|
  {
    var (start, size) := FindSeparator(buf).value;
    w.decode(buf[start + size..FrameEnd(buf, w).value])
  }

  /** The same for the other framing: a frame whose headers are complete is
      served once its body has arrived, exactly when the length is usable and the
      body decodes; otherwise the server waits on it whatever follows. */
  lemma UndecodableHeadedFrameBlocks(buf: Bytes, rest: Bytes, replies: seq<Json>, asked: nat, w: World)
    requires StartsWithIgnoreCase(buf, CONTENT_LENGTH) && FindSeparator(buf).Some?
    requires FrameEnd(buf, w).Some? ==> FrameEnd(buf, w).value <= |buf|
    ensures var s, end := Open(buf + rest, replies, asked), FrameEnd(buf, w);
      if end.None? || HeadedBody(buf, w).None? then Drain(s, w) == s
      else Drain(s, w) == Drain(Serve((buf + rest)[end.value..], replies, asked, HeadedBody(buf, w).value, w), w)
  {
    hide FindSeparator, StartsWithIgnoreCase, DeclaredLength, Dispatch, Question, Drain, Serve;
    LongEnough(buf);
    HeaderIsStable(buf, rest);
    SeparatorIsStable(buf, rest);
    var (start, size) := FindSeparator(buf).value;
    assert (buf + rest)[..start] == buf[..start];
    var end := FrameEnd(buf, w);
    if end.Some? {
      assert (buf + rest)[start + size..end.value] == buf[start + size..end.value];
    }
    DrainUnfolds(Open(buf + rest, replies, asked), w);
  }

  lemma DrainUnfolds(s: Server, w: World)
    requires s.Open?
    ensures match ParseFrame(s.buf, w)
      case None => Drain(s, w) == s
      case Some((request, taken)) => Drain(s, w) == Drain(Serve(s.buf[taken..], s.replies, s.asked, request, w), w)
  {
    hide ParseFrame, Serve;
  }
}
