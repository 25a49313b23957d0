/** Tailing a session's event stream and transcript from a remembered offset
    (baude-core/src/meta.rs): polling agrees with reading everything at once. */
module EventTail {
  import opened Prelude
  import opened Bytes
  import opened Json

  const ACTIVITY_CAP := 200
  const LF: Byte := '\n'
  const CR: Byte := '\r'

  /** UTF-8 validity and JSON decoding of a line, left open. */
  datatype Decoder = Decoder(valid: Bytes -> bool, decode: Bytes -> Option<Json>)

  // ----- Complete lines -----

  function StripReturn(line: Bytes): Bytes {
    if line != [] && line[|line| - 1] == CR then line[..|line| - 1] else line
  }

  /** The complete lines of a text, without their ends. */
  function Lines(text: Bytes): seq<Bytes>
    decreases |text|
  {
    var at := Index(text, LF);
    if at.None? then [] else [StripReturn(text[..at.value])] + Lines(text[at.value + 1..])
  }

  /** Just past the last newline. */
  function LineEnd(text: Bytes): (end: nat)
    ensures end <= |text|
    ensures end > 0 ==> text[end - 1] == LF
    ensures forall i | end <= i < |text| :: text[i] != LF
    decreases |text|
  {
    if text == [] then 0
    else if text[|text| - 1] == LF then |text|
    else LineEnd(text[..|text| - 1])
  }

  predicate AtLineStart(text: Bytes, at: nat) {
    at <= |text| && (at == 0 || text[at - 1] == LF)
  }

  lemma FirstLine(line: Bytes, rest: Bytes)
    requires LF !in line
    ensures Lines(line + [LF] + rest) == [StripReturn(line)] + Lines(rest)
  {
    hide Index, StripReturn;
    var text := line + [LF] + rest;
    assert text[..|line|] == line && text[|line| + 1..] == rest;
    IndexIs(text, LF, |line|);
  }

  lemma {:induction false} LinesConcat(a: Bytes, b: Bytes)
    requires AtLineStart(a, |a|)
    ensures Lines(a + b) == Lines(a) + Lines(b)
    decreases |a|
  {
    hide Lines, Index;
    if a == [] {
      assert a + b == b;
      NoLines();
    } else {
      assert LF in a;
      var at := Index(a, LF).value;
      var line, rest := a[..at], a[at + 1..];
      FirstLine(line, rest);
      FirstLine(line, rest + b);
      assert a == line + [LF] + rest && a + b == line + [LF] + (rest + b);
      LinesConcat(rest, b);
    }
  }

  lemma NoLines()
    ensures Lines([]) == []
  {
  }

  lemma LineEndOfTail(text: Bytes, at: nat)
    requires AtLineStart(text, at)
    ensures LineEnd(text) == at + LineEnd(text[at..])
  {
    var end := at + LineEnd(text[at..]);
    assert forall i | end <= i < |text| :: text[i] == text[at..][i - at];
    if LineEnd(text[at..]) > 0 { assert text[end - 1] == text[at..][end - 1 - at]; }
  }

  // ----- Hook events -----

  datatype HookEvent = HookEvent(event: string, tool: Option<string>, notificationType: Option<string>, ts: U64)

  function AsU64(v: Json): U64 {
    if v.Int? && 0 <= v.number <= U64_MAX then v.number else 0
  }

  /** The event a line carries; one without an event name carries none. */
  function EventOf(line: Bytes, d: Decoder): Option<HookEvent> {
    var v := d.decode(line);
    if v.None? || !v.value.At("event").Str? then None
    else Some(HookEvent(v.value.At("event").text, v.value.At("tool").AsStr(),
                        v.value.At("notification_type").AsStr(), AsU64(v.value.At("ts"))))
  }

  function EventsOf(lines: seq<Bytes>, d: Decoder): seq<HookEvent> {
    if lines == [] then []
    else
      var e := EventOf(lines[|lines| - 1], d);
      EventsOf(lines[..|lines| - 1], d) + if e.Some? then [e.value] else []
  }

  datatype EventState = EventState(
    hookStatus: Option<(bool, U64)>,
    lastTool: Option<(string, U64)>,
    lastNotification: Option<(string, U64)>,
    lastStop: Option<U64>,
    activity: seq<HookEvent>)

  /** The most recent answer an event gives. */
  function Latest<T>(events: seq<HookEvent>, answer: HookEvent -> Option<T>): Option<T> {
    if events == [] then None
    else
      var last := answer(events[|events| - 1]);
      if last.Some? then last else Latest(events[..|events| - 1], answer)
  }

  /** Busy after a prompt or a tool, not busy after a stop or a notification. */
  function StatusOf(e: HookEvent): Option<(bool, U64)> {
    if e.event == "UserPromptSubmit" || e.event == "PostToolUse" then Some((true, e.ts))
    else if e.event == "Stop" || e.event == "Notification" then Some((false, e.ts))
    else None
  }

  function ToolOf(e: HookEvent): Option<(string, U64)> {
    if e.event == "PostToolUse" && e.tool.Some? then Some((e.tool.value, e.ts)) else None
  }

  function NotificationOf(e: HookEvent): Option<(string, U64)> {
    if e.event == "Notification" && e.notificationType.Some? then Some((e.notificationType.value, e.ts)) else None
  }

  function StopOf(e: HookEvent): Option<U64> {
    if e.event == "Stop" then Some(e.ts) else None
  }

  function LastN(events: seq<HookEvent>, n: nat): seq<HookEvent> {
    if |events| <= n then events else events[|events| - n..]
  }

  /** What a whole history of events amounts to, read once from the end. */
  function StateOf(events: seq<HookEvent>): EventState {
    EventState(Latest(events, StatusOf), Latest(events, ToolOf), Latest(events, NotificationOf), Latest(events, StopOf),
               LastN(events, ACTIVITY_CAP))
  }

  // ----- The event tail -----

  /** What one poll finds of the file: the stamps, the length when opened, and
      the whole content when read; any of them can fail. */
  datatype Look = Look(mtime: Option<int>, statLen: Option<nat>, present: bool, openLen: nat, content: Option<Bytes>)

  /** The reader's cursor, its gate, and the events read so far. */
  datatype Tail = Tail(path: Option<string>, offset: nat, mtime: Option<int>, len: Option<nat>, seen: seq<HookEvent>)

  const UNREAD := Tail(None, 0, None, None, [])

  predicate Unchanged(t: Tail, look: Look) {
    look.mtime.Some? && look.mtime == t.mtime && look.statLen == t.len
  }

  function Rest(content: Bytes, offset: nat): Bytes {
    if offset <= |content| then content[offset..] else []
  }

  /** The complete lines a read adds; none when it fails, or what follows the offset is not UTF-8. */
  function NewText(offset: nat, look: Look, d: Decoder): Bytes {
    if !look.present || look.openLen <= offset || look.content.None? || !d.valid(Rest(look.content.value, offset)) then []
    else
      var rest := Rest(look.content.value, offset);
      rest[..LineEnd(rest)]
  }

  function Retarget(t: Tail, path: string): Tail {
    if t.path == Some(path) then t else t.(path := Some(path), offset := 0, seen := [])
  }

  function PollEvents(before: Tail, path: string, look: Look, d: Decoder): Tail {
    var t := Retarget(before, path);
    var text := NewText(t.offset, look, d);
    if Unchanged(t, look) || text == [] then t
    else Tail(t.path, t.offset + |text|, look.mtime, look.statLen, t.seen + EventsOf(Lines(text), d))
  }

  // ----- The transcript tail -----

  /** Token counts, wrapping at 64 bits. */
  datatype Usage = Usage(input: U64, output: U64, cacheRead: U64, cacheCreate: U64) {
    function Plus(more: Usage): Usage {
      Usage(Wrap(input + more.input), Wrap(output + more.output), Wrap(cacheRead + more.cacheRead), Wrap(cacheCreate + more.cacheCreate))
    }
  }

  function Wrap(n: nat): U64 {
    n % (U64_MAX + 1)
  }

  const NO_USAGE := Usage(0, 0, 0, 0)

  function UsageOf(record: Json): Option<Usage> {
    var u := record.At("message").At("usage");
    if record.At("type") != Str("assistant") || !u.Obj? then None
    else Some(Usage(AsU64(u.At("input_tokens")), AsU64(u.At("output_tokens")),
                    AsU64(u.At("cache_read_input_tokens")), AsU64(u.At("cache_creation_input_tokens"))))
  }

  function ModelOf(record: Json): Option<string> {
    if record.At("type") == Str("assistant") then record.At("message").At("model").AsStr() else None
  }

  function TitleOf(record: Json): Option<string> {
    if record.At("type") == Str("ai-title") then record.At("aiTitle").AsStr() else None
  }

  function ModeOf(record: Json): Option<string> {
    record.At("permissionMode").AsStr()
  }

  /** The records of the lines that decode. */
  function RecordsOf(lines: seq<Bytes>, d: Decoder): seq<Json> {
    if lines == [] then []
    else
      var v := d.decode(lines[|lines| - 1]);
      RecordsOf(lines[..|lines| - 1], d) + if v.Some? then [v.value] else []
  }

  function UsagesOf(records: seq<Json>): seq<Usage> {
    if records == [] then []
    else
      var u := UsageOf(records[|records| - 1]);
      UsagesOf(records[..|records| - 1]) + if u.Some? then [u.value] else []
  }

  /** An exact sum of one count over a whole history. */
  function Sum(usages: seq<Usage>, count: Usage -> U64): nat {
    if usages == [] then 0 else Sum(usages[..|usages| - 1], count) + count(usages[|usages| - 1])
  }

  const INPUT := (u: Usage) => u.input
  const OUTPUT := (u: Usage) => u.output
  const CACHE_READ := (u: Usage) => u.cacheRead
  const CACHE_CREATE := (u: Usage) => u.cacheCreate

  function LatestOf(records: seq<Json>, answer: Json -> Option<string>): Option<string> {
    if records == [] then None
    else
      var last := answer(records[|records| - 1]);
      if last.Some? then last else LatestOf(records[..|records| - 1], answer)
  }

  datatype Transcript = Transcript(
    totals: Usage, lastUsage: Option<Usage>, model: Option<string>, title: Option<string>, permissionMode: Option<string>)

  /** What a whole transcript amounts to: each total is the exact sum, cut to 64 bits once. */
  function TranscriptOf(records: seq<Json>): Transcript {
    var usages := UsagesOf(records);
    Transcript(
      Usage(Wrap(Sum(usages, INPUT)), Wrap(Sum(usages, OUTPUT)), Wrap(Sum(usages, CACHE_READ)), Wrap(Sum(usages, CACHE_CREATE))),
      if usages == [] then None else Some(usages[|usages| - 1]),
      LatestOf(records, ModelOf), LatestOf(records, TitleOf), LatestOf(records, ModeOf))
  }

  datatype Records = Records(offset: nat, read: seq<Json>)

  function PollTranscript(r: Records, look: Look, d: Decoder): Records {
    var text := NewText(r.offset, look, d);
    Records(r.offset + |text|, r.read + RecordsOf(Lines(text), d))
  }

  // ----- What one line means -----

  /** What one more event does to a session's state. */
  lemma EventMeans(events: seq<HookEvent>, e: HookEvent)
    ensures var before, after := StateOf(events), StateOf(events + [e]);
      && after.activity == (if |events| < 200 then events + [e] else events[|events| - 199..] + [e])
      && after == match e.event
         case "UserPromptSubmit" => before.(hookStatus := Some((true, e.ts)), activity := after.activity)
         case "Stop" => before.(hookStatus := Some((false, e.ts)), lastStop := Some(e.ts), activity := after.activity)
         case "Notification" =>
           before.(hookStatus := Some((false, e.ts)), activity := after.activity,
                   lastNotification := if e.notificationType.Some? then Some((e.notificationType.value, e.ts)) else before.lastNotification)
         case "PostToolUse" =>
           before.(hookStatus := Some((true, e.ts)), activity := after.activity,
                   lastTool := if e.tool.Some? then Some((e.tool.value, e.ts)) else before.lastTool)
         case _ => before.(activity := after.activity)
  {
    hide Latest;
    OneMoreEvent(events, e);
  }

  /** The line the hook writes for one payload: the names it was given, and null where it was given none. */
  function BuildEvent(payload: Json, now: U64): Json {
    Obj(map[
      "schema" := Int(1), "ts" := Int(now),
      "session_id" := TextOrNull(payload.At("session_id")), "event" := TextOrNull(payload.At("hook_event_name")),
      "tool" := TextOrNull(payload.At("tool_name")), "notification_type" := TextOrNull(payload.At("notification_type"))])
  }

  function TextOrNull(v: Json): Json {
    if v.Str? then v else Null
  }

  /** What the hook writes, the tail reads: the event, the tool, the notification
      type and the time of the payload, or nothing when it names no event. */
  lemma WrittenEventReadsBack(payload: Json, now: U64, line: Bytes, d: Decoder)
    requires d.decode(line) == Some(BuildEvent(payload, now))
    ensures EventOf(line, d) ==
      if !payload.At("hook_event_name").Str? then None
      else Some(HookEvent(payload.At("hook_event_name").text,
                          if payload.At("tool_name").Str? then Some(payload.At("tool_name").text) else None,
                          if payload.At("notification_type").Str? then Some(payload.At("notification_type").text) else None,
                          now))
  {
  }

  /** The count under a key, if it is one. */
  function Count(u: Json, key: string): U64 {
    if u.At(key).Int? && 0 <= u.At(key).number <= U64_MAX then u.At(key).number else 0
  }

  /** What one more record does to a transcript's summary. */
  lemma RecordMeans(records: seq<Json>, v: Json)
    ensures var before, after := TranscriptOf(records), TranscriptOf(records + [v]);
      var answer, u := v.At("type") == Str("assistant"), v.At("message").At("usage");
      && (if answer && u.Obj? then
            after.lastUsage == Some(Usage(Count(u, "input_tokens"), Count(u, "output_tokens"),
                                          Count(u, "cache_read_input_tokens"), Count(u, "cache_creation_input_tokens")))
            && after.totals.input == (before.totals.input + Count(u, "input_tokens")) % 0x1_0000_0000_0000_0000
            && after.totals.output == (before.totals.output + Count(u, "output_tokens")) % 0x1_0000_0000_0000_0000
            && after.totals.cacheRead == (before.totals.cacheRead + Count(u, "cache_read_input_tokens")) % 0x1_0000_0000_0000_0000
            && after.totals.cacheCreate == (before.totals.cacheCreate + Count(u, "cache_creation_input_tokens")) % 0x1_0000_0000_0000_0000
          else after.lastUsage == before.lastUsage && after.totals == before.totals)
      && after.model == (if answer && v.At("message").At("model").Str? then Some(v.At("message").At("model").text) else before.model)
      && after.title == (if v.At("type") == Str("ai-title") && v.At("aiTitle").Str? then Some(v.At("aiTitle").text) else before.title)
      && after.permissionMode == if v.At("permissionMode").Str? then Some(v.At("permissionMode").text) else before.permissionMode
  {
    hide TranscriptOf;
    OneMoreRecord(records, v);
  }

  // ----- The reader -----

  class ClaudeMeta {
    var eventPath: Option<string>
    var offsetEvents: nat
    var lastEventsMtime: Option<int>
    var lastEventsLen: Option<nat>
    var hookStatus: Option<(bool, U64)>
    var lastTool: Option<(string, U64)>
    var lastNotification: Option<(string, U64)>
    var lastStop: Option<U64>
    var activity: seq<HookEvent>
    /** Every event read from the current path. */
    ghost var seen: seq<HookEvent>

    var offset: nat
    var totals: Usage
    var lastUsage: Option<Usage>
    var model: Option<string>
    var title: Option<string>
    var permissionMode: Option<string>
    /** Every record read from the transcript. */
    ghost var read: seq<Json>

    function State(): EventState
      reads this
    {
      EventState(hookStatus, lastTool, lastNotification, lastStop, activity)
    }

    function Summary(): Transcript
      reads this
    {
      Transcript(totals, lastUsage, model, title, permissionMode)
    }

    /** The fields are what one pass over everything read so far would give. */
    ghost predicate Valid()
      reads this
    {
      State() == StateOf(seen) && Summary() == TranscriptOf(read)
    }

    ghost function Events(): Tail
      reads this
    {
      Tail(eventPath, offsetEvents, lastEventsMtime, lastEventsLen, seen)
    }

    ghost function Transcribed(): Records
      reads this
    {
      Records(offset, read)
    }

    constructor ()
      ensures Valid() && Events() == UNREAD && Transcribed() == Records(0, [])
    {
      eventPath, offsetEvents, lastEventsMtime, lastEventsLen := None, 0, None, None;
      hookStatus, lastTool, lastNotification, lastStop, activity, seen := None, None, None, None, [], [];
      offset, totals, lastUsage, model, title, permissionMode, read := 0, NO_USAGE, None, None, None, None, [];
    }

    /** One event: the latest answers change, and the ring drops its oldest entry when full. */
    method Note(e: HookEvent)
      requires Valid()
      modifies this`hookStatus, this`lastTool, this`lastNotification, this`lastStop, this`activity, this`seen
      ensures Valid() && seen == old(seen) + [e]
    {
      hide StateOf, TranscriptOf;
      OneMoreEvent(seen, e);
      match e.event {
        case "UserPromptSubmit" => hookStatus := Some((true, e.ts));
        case "Stop" =>
          hookStatus := Some((false, e.ts));
          lastStop := Some(e.ts);
        case "Notification" =>
          hookStatus := Some((false, e.ts));
          if e.notificationType.Some? { lastNotification := Some((e.notificationType.value, e.ts)); }
        case "PostToolUse" =>
          hookStatus := Some((true, e.ts));
          if e.tool.Some? { lastTool := Some((e.tool.value, e.ts)); }
        case _ =>
      }
      activity := activity + [e];
      if |activity| > ACTIVITY_CAP { activity := activity[1..]; }
      seen := seen + [e];
    }

    method NoteAll(lines: seq<Bytes>, d: Decoder)
      requires Valid()
      modifies this`hookStatus, this`lastTool, this`lastNotification, this`lastStop, this`activity, this`seen
      ensures Valid() && seen == old(seen) + EventsOf(lines, d)
    {
      hide StateOf, TranscriptOf, EventOf;
      for i := 0 to |lines|
        invariant Valid() && seen == old(seen) + EventsOf(lines[..i], d)
      {
        assert lines[..i + 1][..i] == lines[..i];
        var e := EventOf(lines[i], d);
        if e.Some? { Note(e.value); }
      }
      assert lines[..|lines|] == lines;
    }

    /** A new path starts over; the gate's stamps are kept. */
    method FollowPath(path: string)
      requires Valid()
      modifies this`eventPath, this`offsetEvents, this`hookStatus, this`lastTool, this`lastNotification, this`lastStop, this`activity, this`seen
      ensures Valid() && Events() == Retarget(old(Events()), path)
    {
      hide StateOf, TranscriptOf;
      NoEventsYet();
      if eventPath != Some(path) {
        eventPath := Some(path);
        offsetEvents := 0;
        hookStatus, lastTool, lastNotification, lastStop, activity, seen := None, None, None, None, [], [];
      }
    }

    /** Read the event lines added since the last poll of this path. */
    method ReadEventTail(path: string, look: Look, d: Decoder)
      requires Valid()
      modifies this
      ensures Valid() && Events() == PollEvents(old(Events()), path, look, d)
      ensures Transcribed() == old(Transcribed())
    {
      hide StateOf, TranscriptOf, EventsOf, Lines, LineEnd, Rest;
      FollowPath(path);
      if look.mtime.Some? && look.mtime == lastEventsMtime && look.statLen == lastEventsLen { return; }
      if !look.present || look.openLen <= offsetEvents || look.content.None? { return; }
      var buf := Rest(look.content.value, offsetEvents);
      if !d.valid(buf) { return; }
      var consumed := LineEnd(buf);
      if consumed == 0 { return; }
      NoteAll(Lines(buf[..consumed]), d);
      offsetEvents := offsetEvents + consumed;
      lastEventsMtime := look.mtime;
      lastEventsLen := look.statLen;
    }

    /** One transcript record. */
    method Record(v: Json)
      requires Valid()
      modifies this`totals, this`lastUsage, this`model, this`title, this`permissionMode, this`read
      ensures Valid() && read == old(read) + [v]
    {
      hide StateOf, TranscriptOf, AsU64, Usage.Plus, Json.At, Wrap;
      if v.At("permissionMode").Str? { permissionMode := Some(v.At("permissionMode").text); }
      if v.At("type") == Str("ai-title") && v.At("aiTitle").Str? { title := Some(v.At("aiTitle").text); }
      if v.At("type") == Str("assistant") {
        var msg := v.At("message");
        if msg.At("model").Str? { model := Some(msg.At("model").text); }
        var u := msg.At("usage");
        if u.Obj? {
          var usage := Usage(AsU64(u.At("input_tokens")), AsU64(u.At("output_tokens")),
                             AsU64(u.At("cache_read_input_tokens")), AsU64(u.At("cache_creation_input_tokens")));
          totals := totals.Plus(usage);
          lastUsage := Some(usage);
        }
      }
      read := read + [v];
      OneMoreRecord(old(read), v);
    }

    /** Read the transcript lines added since the last poll. */
    method ReadTranscriptTail(look: Look, d: Decoder)
      requires Valid()
      modifies this
      ensures Valid() && Transcribed() == PollTranscript(old(Transcribed()), look, d)
      ensures Events() == old(Events())
    {
      hide StateOf, TranscriptOf, Lines;
      NoLines();
      if !look.present || look.openLen <= offset || look.content.None? {
        assert read + [] == read;
        return;
      }
      var buf := Rest(look.content.value, offset);
      var consumed := LineEnd(buf);
      if !d.valid(buf) || consumed == 0 {
        assert read + [] == read;
        return;
      }
      var lines := Lines(buf[..consumed]);
      for i := 0 to |lines|
        invariant Valid() && Events() == old(Events())
        invariant Transcribed() == old(Transcribed()).(read := old(read) + RecordsOf(lines[..i], d))
      {
        assert lines[..i + 1][..i] == lines[..i];
        var v := d.decode(lines[i]);
        if v.Some? { Record(v.value); }
      }
      assert lines[..|lines|] == lines;
      offset := offset + consumed;
    }
  }

  lemma OneMoreEvent(events: seq<HookEvent>, e: HookEvent)
    ensures StateOf(events + [e]) ==
      var s := StateOf(events);
      EventState(if StatusOf(e).Some? then StatusOf(e) else s.hookStatus,
                 if ToolOf(e).Some? then ToolOf(e) else s.lastTool,
                 if NotificationOf(e).Some? then NotificationOf(e) else s.lastNotification,
                 if StopOf(e).Some? then StopOf(e) else s.lastStop,
                 LastN(s.activity + [e], ACTIVITY_CAP))
    ensures |StateOf(events).activity| <= ACTIVITY_CAP
  {
    assert (events + [e])[..|events|] == events;
  }

  lemma NoEventsYet()
    ensures StateOf([]) == EventState(None, None, None, None, [])
  {
  }

  /** Adding one usage to the wrapped totals is wrapping the longer sum. */
  lemma OneMoreRecord(records: seq<Json>, v: Json)
    ensures TranscriptOf(records + [v]) ==
      var t, u := TranscriptOf(records), UsageOf(v);
      Transcript(if u.Some? then t.totals.Plus(u.value) else t.totals,
                 if u.Some? then u else t.lastUsage,
                 if ModelOf(v).Some? then ModelOf(v) else t.model,
                 if TitleOf(v).Some? then TitleOf(v) else t.title,
                 if ModeOf(v).Some? then ModeOf(v) else t.permissionMode)
  {
    hide UsageOf, ModelOf, TitleOf, ModeOf, Wrap;
    assert (records + [v])[..|records|] == records;
    var usages := UsagesOf(records);
    if UsageOf(v).Some? {
      var u := UsageOf(v).value;
      assert (usages + [u])[..|usages|] == usages;
      WrapTwice(Sum(usages, INPUT), u.input);
      WrapTwice(Sum(usages, OUTPUT), u.output);
      WrapTwice(Sum(usages, CACHE_READ), u.cacheRead);
      WrapTwice(Sum(usages, CACHE_CREATE), u.cacheCreate);
    } else {
      assert usages + [] == usages;
    }
  }

  lemma WrapTwice(a: nat, b: nat)
    ensures Wrap(Wrap(a) + b) == Wrap(a + b)
  {
  }

  // ----- Any schedule of appends and polls -----

  /** The tail stands at a line start of the file, has seen exactly the events
      before it, and its gate only vouches for bytes that hold no further line. */
  ghost predicate Follows(t: Tail, path: string, file: Bytes, d: Decoder) {
    && (t.path == Some(path) || t == UNREAD)
    && AtLineStart(file, t.offset)
    && t.seen == EventsOf(Lines(file[..t.offset]), d)
    && (t.mtime.Some? && t.len.Some? ==> NoLineWithin(file, t.offset, t.len.value))
  }

  predicate NoLineWithin(file: Bytes, from: nat, to: nat) {
    to <= |file| && forall i | from <= i < to :: file[i] != LF
  }

  /** A poll of a file that only grows: `file` before it, `content` once read. */
  predicate Honest(look: Look, file: Bytes, content: Bytes) {
    && file <= content
    && (look.mtime.Some? ==> look.statLen.Some?)
    && (look.statLen.Some? ==> |file| <= look.statLen.value <= look.openLen)
    && |file| <= look.openLen <= |content|
    && (look.content.Some? ==> look.content.value == content)
  }

  lemma {:induction false} EventsConcat(a: seq<Bytes>, b: seq<Bytes>, d: Decoder)
    ensures EventsOf(a + b, d) == EventsOf(a, d) + EventsOf(b, d)
  {
    hide EventOf;
    if b == [] {
      assert a + b == a;
    } else {
      assert (a + b)[..|a + b| - 1] == a + b[..|b| - 1];
      EventsConcat(a, b[..|b| - 1], d);
    }
  }

  lemma {:induction false} RecordsConcat(a: seq<Bytes>, b: seq<Bytes>, d: Decoder)
    ensures RecordsOf(a + b, d) == RecordsOf(a, d) + RecordsOf(b, d)
  {
    if b == [] {
      assert a + b == a;
    } else {
      assert (a + b)[..|a + b| - 1] == a + b[..|b| - 1];
      RecordsConcat(a, b[..|b| - 1], d);
    }
  }

  /** The new lines continue the lines already read, and end where the content's lines end. */
  lemma NewTextContinues(content: Bytes, offset: nat, look: Look, d: Decoder)
    requires AtLineStart(content, offset)
    requires look.content == Some(content)
    ensures var text := NewText(offset, look, d);
      && AtLineStart(content, offset + |text|)
      && Lines(content[..offset + |text|]) == Lines(content[..offset]) + Lines(text)
      && (text != [] ==> offset + |text| == LineEnd(content))
  {
    hide Lines;
    var text := NewText(offset, look, d);
    LineEndOfTail(content, offset);
    assert content[..offset + |text|] == content[..offset] + text;
    LinesConcat(content[..offset], text);
  }

  lemma NothingNewReads(offset: nat, look: Look, d: Decoder)
    requires look.content.None?
    ensures NewText(offset, look, d) == []
  {
  }

  /** One poll keeps following, whatever fails; when nothing fails and what
      follows the offset is UTF-8, no line complete at the stat is left unread,
      even where the stamps did not move. */
  lemma PollKeepsFollowing(t: Tail, path: string, file: Bytes, content: Bytes, look: Look, d: Decoder)
    requires Follows(t, path, file, d) && Honest(look, file, content)
    ensures var t' := PollEvents(t, path, look, d);
      && Follows(t', path, content, d)
      && (look.present && look.content.Some? && d.valid(Rest(content, t.offset)) ==>
        NoLineWithin(content, t'.offset, if look.statLen.Some? then look.statLen.value else look.openLen))
  {
    hide Lines, EventsOf, LineEnd;
    NoEvents(d);
    var r := Retarget(t, path);
    assert content[..t.offset] == file[..t.offset];
    assert r.offset == t.offset && r.seen == t.seen;
    if !Unchanged(r, look) {
      if look.content.Some? {
        ReadKeepsFollowing(r, path, content, look, d);
      } else {
        NothingNewReads(r.offset, look, d);
      }
    }
  }

  /** ... a poll that reads the content. */
  lemma ReadKeepsFollowing(r: Tail, path: string, content: Bytes, look: Look, d: Decoder)
    requires Follows(r.(mtime := None), path, content, d) && r.path == Some(path)
    requires !Unchanged(r, look) && look.content == Some(content) && (look.statLen.Some? ==> look.statLen.value <= look.openLen)
    requires look.openLen <= |content| && (look.mtime.Some? ==> look.statLen.Some?)
    requires r.mtime.Some? && r.len.Some? ==> NoLineWithin(content, r.offset, r.len.value)
    ensures var r' := PollEvents(r, path, look, d);
      && Follows(r', path, content, d)
      && (look.present && d.valid(Rest(content, r.offset)) ==>
        NoLineWithin(content, r'.offset, if look.statLen.Some? then look.statLen.value else look.openLen))
  {
    hide Lines, EventsOf;
    NoEvents(d);
    NewTextContinues(content, r.offset, look, d);
    EventsConcat(Lines(content[..r.offset]), Lines(NewText(r.offset, look, d)), d);
    LineEndOfTail(content, r.offset);
  }

  lemma NoEvents(d: Decoder)
    ensures EventsOf(Lines([]), d) == []
  {
  }

  datatype Step =
    | Append(bytes: Bytes)
    /** A poll; the file may grow between the stat, the open and the read. */
    | Poll(stat: Option<Option<int>>, beforeOpen: Bytes, present: bool, beforeRead: Bytes, readable: bool)
  {
    function Grown(file: Bytes): Bytes {
      if Append? then file + bytes else file + beforeOpen + beforeRead
    }

    function LookAt(file: Bytes): Look
      requires Poll?
    {
      Look(if stat.Some? then stat.value else None, if stat.Some? then Some(|file|) else None,
           present, |file + beforeOpen|, if readable then Some(Grown(file)) else None)
    }
  }

  function Run(steps: seq<Step>, path: string, d: Decoder): (Bytes, Tail) {
    if steps == [] then ([], UNREAD)
    else
      var (file, t) := Run(steps[..|steps| - 1], path, d);
      var step := steps[|steps| - 1];
      (step.Grown(file), if step.Append? then t else PollEvents(t, path, step.LookAt(file), d))
  }

  lemma StepIsHonest(step: Step, file: Bytes)
    requires step.Poll?
    ensures Honest(step.LookAt(file), file, step.Grown(file))
  {
  }

  /** After any schedule of appends and polls, with any stamps and any failures,
      the tail has seen exactly the events of the lines before its offset. */
  lemma {:induction false} AnyScheduleFollows(steps: seq<Step>, path: string, d: Decoder)
    ensures var (file, t) := Run(steps, path, d); Follows(t, path, file, d)
  {
    hide Honest, PollEvents, Lines, EventsOf;
    NoEvents(d);
    if steps != [] {
      var step := steps[|steps| - 1];
      AnyScheduleFollows(steps[..|steps| - 1], path, d);
      var (file, t) := Run(steps[..|steps| - 1], path, d);
      if step.Append? {
        assert (file + step.bytes)[..t.offset] == file[..t.offset];
      } else {
        StepIsHonest(step, file);
        PollKeepsFollowing(t, path, file, step.Grown(file), step.LookAt(file), d);
      }
    }
  }

  /** A successful poll of a quiet file leaves the offset just past the last
      newline, with one pass over the whole file seen, exactly when what
      followed the old offset is UTF-8 or held no new line. */
  lemma QuietPollCatchesUp(steps: seq<Step>, path: string, stat: Option<Option<int>>, d: Decoder)
    ensures var (file, t) := Run(steps, path, d);
      var (file', t') := Run(steps + [Poll(stat, [], true, [], true)], path, d);
      && file' == file
      && (t'.offset == LineEnd(file) <==> (d.valid(Rest(file, t.offset)) || t.offset == LineEnd(file)))
      && (t'.offset == LineEnd(file) ==> t'.seen == EventsOf(Lines(file), d))
  {
    hide Honest, PollEvents, Lines, EventsOf;
    var all := steps + [Poll(stat, [], true, [], true)];
    assert all[..|steps|] == steps;
    var (file, t) := Run(steps, path, d);
    AnyScheduleFollows(steps, path, d);
    var poll := Poll(stat, [], true, [], true);
    assert poll.Grown(file) == file && file + [] == file;
    StepIsHonest(poll, file);
    PollKeepsFollowing(t, path, file, file, poll.LookAt(file), d);
    var t' := Run(all, path, d).1;
    if d.valid(Rest(file, t.offset)) { SameLines(file, t'.offset); }
    else { UndecodableTailWaits(t, path, poll.LookAt(file), d); }
    if t'.offset == LineEnd(file) { SameLines(file, t'.offset); }
  }

  lemma UndecodableTailWaits(t: Tail, path: string, look: Look, d: Decoder)
    requires look.content.Some? && !d.valid(Rest(look.content.value, t.offset)) && (t.path == Some(path) || t == UNREAD)
    ensures PollEvents(t, path, look, d).offset == t.offset
  {
  }

  lemma SameLines(file: Bytes, at: nat)
    requires AtLineStart(file, at) && NoLineWithin(file, at, |file|)
    ensures at == LineEnd(file) && Lines(file[..at]) == Lines(file)
  {
    hide Lines, Index;
    var rest := file[at..];
    assert forall i | 0 <= i < |rest| :: rest[i] == file[at + i];
    LineEndOfTail(file, at);
    NoNewlineNoLines(rest);
    LinesConcat(file[..at], rest);
    assert file == file[..at] + rest;
  }

  lemma NoNewlineNoLines(text: Bytes)
    requires LF !in text
    ensures Lines(text) == []
  {
  }

  /** The transcript reader, over the same schedules. */
  function RunTranscript(steps: seq<Step>, d: Decoder): (Bytes, Records) {
    if steps == [] then ([], Records(0, []))
    else
      var (file, r) := RunTranscript(steps[..|steps| - 1], d);
      var step := steps[|steps| - 1];
      (step.Grown(file), if step.Append? then r else PollTranscript(r, step.LookAt(file), d))
  }

  lemma {:induction false} TranscriptIsOnePass(steps: seq<Step>, d: Decoder)
    ensures var (file, r) := RunTranscript(steps, d);
      AtLineStart(file, r.offset) && r.read == RecordsOf(Lines(file[..r.offset]), d)
  {
    hide Lines, RecordsOf, NewText;
    NoRecords(d);
    if steps != [] {
      var step := steps[|steps| - 1];
      TranscriptIsOnePass(steps[..|steps| - 1], d);
      var (file, r) := RunTranscript(steps[..|steps| - 1], d);
      var content := step.Grown(file);
      assert content[..r.offset] == file[..r.offset];
      if step.Poll? {
        var look := step.LookAt(file);
        var text := NewText(r.offset, look, d);
        if look.content.Some? {
          NewTextContinues(content, r.offset, look, d);
          RecordsConcat(Lines(content[..r.offset]), Lines(text), d);
        } else {
          NothingNewReads(r.offset, look, d);
          assert r.read + [] == r.read;
        }
      }
    }
  }

  /** A successful poll of a quiet transcript ends just past the last newline,
      with one pass over the whole of it read, exactly when what followed the
      old offset is UTF-8 or held no new line. */
  lemma QuietTranscriptPollCatchesUp(steps: seq<Step>, stat: Option<Option<int>>, d: Decoder)
    ensures var (file, r) := RunTranscript(steps, d);
      var (file', r') := RunTranscript(steps + [Poll(stat, [], true, [], true)], d);
      && file' == file
      && (r'.offset == LineEnd(file) <==> (d.valid(Rest(file, r.offset)) || r.offset == LineEnd(file)))
      && (r'.offset == LineEnd(file) ==> r'.read == RecordsOf(Lines(file), d))
  {
    hide Lines, RecordsOf, NewText;
    var poll := Poll(stat, [], true, [], true);
    var all := steps + [poll];
    assert all[..|steps|] == steps;
    var (file, r) := RunTranscript(steps, d);
    var r' := RunTranscript(all, d).1;
    assert poll.Grown(file) == file && file + [] == file;
    TranscriptIsOnePass(steps, d);
    TranscriptIsOnePass(all, d);
    QuietText(file, r.offset, poll.LookAt(file), d);
    if r'.offset == LineEnd(file) { SameLines(file, r'.offset); }
  }

  /** What a whole, quiet read adds. */
  lemma QuietText(file: Bytes, offset: nat, look: Look, d: Decoder)
    requires AtLineStart(file, offset) && look.present && look.openLen == |file| && look.content == Some(file)
    ensures offset + |NewText(offset, look, d)| == if d.valid(Rest(file, offset)) then LineEnd(file) else offset
  {
    LineEndOfTail(file, offset);
  }

  lemma NoRecords(d: Decoder)
    ensures RecordsOf(Lines([]), d) == []
  {
  }

  /** After a session id changes, a poll reads the new file unless its stamps
      happen to equal the ones kept from the old file: the gate is not reset. */
  lemma RotationReadsUnlessStampsCollide(t: Tail, path: string, content: Bytes, mtime: Option<int>, d: Decoder)
    requires t.path != Some(path) && LineEnd(content) > 0 && d.valid(content)
    ensures var look := Look(mtime, Some(|content|), true, |content|, Some(content));
      var t' := PollEvents(t, path, look, d);
      && (t'.offset == LineEnd(content) <==> !(mtime.Some? && mtime == t.mtime && t.len == Some(|content|)))
      && (t'.offset != LineEnd(content) ==> t'.offset == 0 && t'.seen == [])
  {
    assert content[0..] == content;
  }
}
