// The task file: how a task is written as JSON, and how a row is read back.
module TaskForm {
  import opened Prelude
  import opened Json
  import opened RuntimePolicy
  import opened TaskQueue

  function StatusText(s: Status): string {
    match s
    case Queued => "queued"
    case Running => "running"
    case Cancelling => "cancelling"
    case Done => "done"
    case Failed => "failed"
    case Cancelled => "cancelled"
    case Timeout => "timeout"
  }

  // Texts the queue never writes are refused here.
  function ReadStatus(text: string): Read<Status> {
    if text == "queued" then Ok(Queued)
    else if text == "running" then Ok(Running)
    else if text == "cancelling" then Ok(Cancelling)
    else if text == "done" then Ok(Done)
    else if text == "failed" then Ok(Failed)
    else if text == "cancelled" then Ok(Cancelled)
    else if text == "timeout" then Ok(Timeout)
    else Reading.Refused("foreign status")
  }

  function KindText(k: EventType): string {
    match k
    case TaskEnqueued => "task_enqueued"
    case TaskCancelled => "task_cancelled"
    case TaskStarted => "task_started"
    case TaskCancelling => "task_cancelling"
    case TaskCancelIgnored => "task_cancel_ignored"
    case TaskFinished => "task_finished"
    case TaskRecovered => "task_recovered"
  }

  function ReadKind(text: string): Read<EventType> {
    if text == "task_enqueued" then Ok(TaskEnqueued)
    else if text == "task_cancelled" then Ok(TaskCancelled)
    else if text == "task_started" then Ok(TaskStarted)
    else if text == "task_cancelling" then Ok(TaskCancelling)
    else if text == "task_cancel_ignored" then Ok(TaskCancelIgnored)
    else if text == "task_finished" then Ok(TaskFinished)
    else if text == "task_recovered" then Ok(TaskRecovered)
    else Reading.Refused("foreign event type")
  }

  // ------------------------------------------------------------------
  // Writing

  function EventJson(e: Event): Json {
    Obj(map["seq" := Num(e.seqNo), "type" := Str(KindText(e.kind)), "status" := Str(StatusText(e.status)),
            "atMs" := Num(e.atMs)])
  }

  function EventRows(events: seq<Event>): (r: seq<Json>)
    ensures |r| == |events| && forall i :: 0 <= i < |events| ==> r[i] == EventJson(events[i])
  {
    seq(|events|, i requires 0 <= i < |events| => EventJson(events[i]))
  }

  function FixedMembers(t: Task): Members {
    map[
      "id" := Str(t.id),
      "status" := Str(StatusText(t.status)),
      "channel" := Str(t.channel),
      "peerId" := Str(t.peerId),
      "text" := Str(t.text),
      "systemEvent" := Bool(t.systemEvent),
      "timeoutMs" := Num(t.timeoutMs),
      "result" := Str(t.result),
      "error" := Str(t.error),
      "createdAtMs" := Num(t.createdAtMs),
      "startedAtMs" := Num(t.startedAtMs),
      "finishedAtMs" := Num(t.finishedAtMs),
      "eventsCount" := Num(|t.events|),
      "lastEventSeq" := Num(if t.events == [] then 0 else t.events[|t.events| - 1].seqNo),
      "events" := Arr(EventRows(t.events)),
      "nextEventSeq" := Num(t.nextEventSeq)]
  }

  // A policy without members is not written.
  function WithPolicy(row: Members, key: string, policy: Members): Members {
    if policy == map[] then row else row[key := Obj(policy)]
  }

  function RowJson(t: Task): Json {
    Obj(WithPolicy(WithPolicy(FixedMembers(t), "context", t.context), "tools", t.tools))
  }

  function RowsJson(rows: seq<Task>): (r: seq<Json>)
    ensures |r| == |rows| && forall i :: 0 <= i < |rows| ==> r[i] == RowJson(rows[i])
  {
    seq(|rows|, i requires 0 <= i < |rows| => RowJson(rows[i]))
  }

  function FileJson(rows: seq<Task>): Json {
    Obj(map["tasks" := Arr(RowsJson(rows))])
  }

  // ------------------------------------------------------------------
  // Reading

  // json::value with a default of type int64_t, for which a boolean is no number
  function StrictNumberOr(src: Json, key: string, default: int): Read<int> {
    if src.Obj? && key in src.members && src.members[key].Bool? then Reading.Thrown else NumberOr(src, key, default)
  }

  function ObjectOr(src: Json, key: string): Members {
    if src.At(key).Obj? then src.At(key).members else map[]
  }

  // An event without a type or a positive number is dropped.
  function ReadEvent(ev: Json): Read<seq<Event>> {
    if !ev.Obj? then Ok([])
    else
      var seqNo :- NumberOr(ev, "seq", 0);
      var kind :- StringOr(ev, "type", "");
      var status :- StringOr(ev, "status", "");
      var atMs :- NumberOr(ev, "atMs", 0);
      if seqNo <= 0 || kind == "" then Ok([])
      else
        var k :- ReadKind(kind);
        var s :- ReadStatus(status);
        Ok([Event(seqNo, k, s, atMs)])
  }

  function ReadEvents(items: seq<Json>): Read<seq<Event>> {
    if items == [] then Ok([])
    else
      var before :- ReadEvents(items[..|items| - 1]);
      var more :- ReadEvent(items[|items| - 1]);
      Ok(before + more)
  }

  function ReadLedger(row: Json): Read<seq<Event>> {
    if row.At("events").Arr? then ReadEvents(row.At("events").items) else Ok([])
  }

  // The part of a row that the request gave.
  function ReadRequested(c: Config, row: Json): Read<Request> {
    var channel :- StringOr(row, "channel", "api");
    var peerId :- StringOr(row, "peerId", "");
    var text :- StringOr(row, "text", "");
    var systemEvent :- BoolOr(row, "systemEvent", false);
    var timeoutMs :- NumberOr(row, "timeoutMs", c.defaultTimeoutMs);
    Ok(Request(channel, peerId, text, systemEvent, timeoutMs, ObjectOr(row, "context"), ObjectOr(row, "tools")))
  }

  datatype Times = Times(result: string, error: string, createdAtMs: int, startedAtMs: int, finishedAtMs: int)

  function ReadTimes(row: Json, now: int): Read<Times> {
    var result :- StringOr(row, "result", "");
    var error :- StringOr(row, "error", "");
    var createdAtMs :- StrictNumberOr(row, "createdAtMs", now);
    var startedAtMs :- NumberOr(row, "startedAtMs", 0);
    var finishedAtMs :- NumberOr(row, "finishedAtMs", 0);
    Ok(Times(result, error, createdAtMs, startedAtMs, finishedAtMs))
  }

  // One row; a row without an id is skipped.
  function ReadTask(c: Config, row: Json, now: int): Read<seq<Task>> {
    var id :- StringOr(row, "id", "");
    if id == "" then Ok([])
    else
      var statusText :- StringOr(row, "status", "queued");
      var r :- ReadRequested(c, row);
      var x :- ReadTimes(row, now);
      var events :- ReadLedger(row);
      var nextEventSeq :- NumberOr(row, "nextEventSeq", 1);
      var status :- ReadStatus(statusText);
      Ok([Task(id, status, r.channel, r.peerId, r.text, r.systemEvent, r.timeoutMs, r.context, r.tools,
               events, nextEventSeq, x.result, x.error, x.createdAtMs, x.startedAtMs, x.finishedAtMs)])
  }

  function ReadRows(c: Config, rows: seq<Json>, now: int): Read<seq<Task>> {
    if rows == [] then Ok([])
    else
      var before :- ReadRows(c, rows[..|rows| - 1], now);
      var more :- ReadTask(c, rows[|rows| - 1], now);
      Ok(before + more)
  }

  function ReadFile(c: Config, doc: Json, now: int): Read<seq<Task>> {
    if !doc.At("tasks").Arr? then Reading.Refused("no tasks") else ReadRows(c, doc.At("tasks").items, now)
  }

  // ------------------------------------------------------------------
  // The round trip

  lemma EventRoundTrip(e: Event)
    requires e.seqNo > 0
    ensures ReadEvent(EventJson(e)) == Ok([e])
  {
    StatusRoundTrip(e.status);
    KindRoundTrip(e.kind);
    var ev := EventJson(e);
    assert ev.members["seq"] == Num(e.seqNo) && ev.members["atMs"] == Num(e.atMs);
    assert ev.members["type"] == Str(KindText(e.kind)) && ev.members["status"] == Str(StatusText(e.status));
  }

  lemma StatusRoundTrip(s: Status)
    ensures ReadStatus(StatusText(s)) == Ok(s)
  {
  }

  lemma KindRoundTrip(k: EventType)
    ensures ReadKind(KindText(k)) == Ok(k) && KindText(k) != ""
  {
  }

  ghost predicate EventsReadBack(events: seq<Event>) {
    ReadEvents(EventRows(events)) == Ok(events)
  }

  lemma {:induction false} EventsRoundTrip(events: seq<Event>)
    requires forall i :: 0 <= i < |events| ==> events[i].seqNo > 0
    ensures EventsReadBack(events)
  {
    if events == [] {
      NoEvents();
    } else {
      var n := |events| - 1;
      EventsRoundTrip(events[..n]);
      OneMoreEvent(events[..n], events[n]);
      assert events[..n] + [events[n]] == events;
    }
  }

  lemma NoEvents()
    ensures EventsReadBack([])
  {
  }

  lemma OneMoreEvent(init: seq<Event>, last: Event)
    requires last.seqNo > 0 && EventsReadBack(init)
    ensures EventsReadBack(init + [last])
  {
    EventRoundTrip(last);
    assert EventRows(init + [last]) == EventRows(init) + [EventJson(last)];
    assert EventRows(init + [last])[..|init|] == EventRows(init);
  }

  // The policies hide no fixed member.
  lemma FixedIsBack(t: Task, key: string)
    requires key in FixedMembers(t) && key != "context" && key != "tools"
    ensures key in RowJson(t).members && RowJson(t).members[key] == FixedMembers(t)[key]
  {
  }

  lemma PoliciesAreBack(t: Task)
    ensures ObjectOr(RowJson(t), "context") == t.context && ObjectOr(RowJson(t), "tools") == t.tools
  {
    assert "context" !in FixedMembers(t) && "tools" !in FixedMembers(t);
    assert "context" != "tools";
  }

  lemma RequestedIsBack(c: Config, t: Task)
    ensures ReadRequested(c, RowJson(t))
      == Ok(Request(t.channel, t.peerId, t.text, t.systemEvent, t.timeoutMs, t.context, t.tools))
  {
    var fixed := FixedMembers(t);
    assert fixed["channel"] == Str(t.channel) && fixed["peerId"] == Str(t.peerId) && fixed["text"] == Str(t.text);
    assert fixed["systemEvent"] == Bool(t.systemEvent) && fixed["timeoutMs"] == Num(t.timeoutMs);
    FixedIsBack(t, "channel");
    FixedIsBack(t, "peerId");
    FixedIsBack(t, "text");
    FixedIsBack(t, "systemEvent");
    FixedIsBack(t, "timeoutMs");
    PoliciesAreBack(t);
  }

  lemma TimesAreBack(t: Task, now: int)
    ensures ReadTimes(RowJson(t), now) == Ok(Times(t.result, t.error, t.createdAtMs, t.startedAtMs, t.finishedAtMs))
  {
    var fixed := FixedMembers(t);
    assert fixed["result"] == Str(t.result) && fixed["error"] == Str(t.error);
    assert fixed["createdAtMs"] == Num(t.createdAtMs) && fixed["startedAtMs"] == Num(t.startedAtMs);
    assert fixed["finishedAtMs"] == Num(t.finishedAtMs);
    FixedIsBack(t, "result");
    FixedIsBack(t, "error");
    FixedIsBack(t, "createdAtMs");
    FixedIsBack(t, "startedAtMs");
    FixedIsBack(t, "finishedAtMs");
  }

  lemma LedgerIsBack(t: Task)
    requires forall i :: 0 <= i < |t.events| ==> t.events[i].seqNo > 0
    ensures StringOr<string>(RowJson(t), "id", "") == Ok(t.id)
    ensures StringOr<string>(RowJson(t), "status", "queued") == Ok(StatusText(t.status))
    ensures ReadLedger(RowJson(t)) == Ok(t.events)
    ensures NumberOr<string>(RowJson(t), "nextEventSeq", 1) == Ok(t.nextEventSeq)
  {
    var fixed := FixedMembers(t);
    assert fixed["id"] == Str(t.id) && fixed["status"] == Str(StatusText(t.status));
    assert fixed["events"] == Arr(EventRows(t.events)) && fixed["nextEventSeq"] == Num(t.nextEventSeq);
    FixedIsBack(t, "id");
    FixedIsBack(t, "status");
    FixedIsBack(t, "events");
    FixedIsBack(t, "nextEventSeq");
    EventsRoundTrip(t.events);
  }

  // Main result 1. A written row reads back as the task it was written from, member by
  // member, whatever the configuration and the clock are by then.
  lemma RowTextRoundTrip(c: Config, t: Task, now: int)
    requires Storable(t)
    ensures ReadTask(c, RowJson(t), now) == Ok([t])
  {
    RequestedIsBack(c, t);
    TimesAreBack(t, now);
    LedgerIsBack(t);
    StatusRoundTrip(t.status);
  }

  // What the queue stores: ids and positive event numbers.
  ghost predicate Storable(t: Task) {
    t.id != "" && forall i :: 0 <= i < |t.events| ==> t.events[i].seqNo > 0
  }

  ghost predicate ReadsBack(c: Config, rows: seq<Task>, now: int) {
    ReadRows(c, RowsJson(rows), now) == Ok(rows)
  }

  lemma {:induction false} RowsRoundTrip(c: Config, rows: seq<Task>, now: int)
    requires forall i :: 0 <= i < |rows| ==> Storable(rows[i])
    ensures ReadsBack(c, rows, now)
  {
    if rows == [] {
      NoRows(c, now);
    } else {
      var n := |rows| - 1;
      RowsRoundTrip(c, rows[..n], now);
      OneMoreRow(c, rows[..n], rows[n], now);
      assert rows[..n] + [rows[n]] == rows;
    }
  }

  lemma NoRows(c: Config, now: int)
    ensures ReadsBack(c, [], now)
  {
  }

  lemma OneMoreRow(c: Config, init: seq<Task>, last: Task, now: int)
    requires Storable(last) && ReadsBack(c, init, now)
    ensures ReadsBack(c, init + [last], now)
  {
    RowTextRoundTrip(c, last, now);
    ReadRowsSnoc(c, RowsJson(init), RowJson(last), init, last, now);
    assert RowsJson(init + [last]) == RowsJson(init) + [RowJson(last)];
  }

  lemma ReadRowsSnoc(c: Config, before: seq<Json>, last: Json, tasks: seq<Task>, t: Task, now: int)
    requires ReadRows(c, before, now) == Ok(tasks) && ReadTask(c, last, now) == Ok([t])
    ensures ReadRows(c, before + [last], now) == Ok(tasks + [t])
  {
    assert (before + [last])[..|before|] == before;
  }

  // Main result 2. A written file reads back row by row.
  lemma FileRoundTrip(c: Config, rows: seq<Task>, now: int)
    requires forall i :: 0 <= i < |rows| ==> Storable(rows[i])
    ensures ReadFile(c, FileJson(rows), now) == Ok(rows)
  {
    RowsRoundTrip(c, rows, now);
  }

  // ------------------------------------------------------------------
  // The format, member by member

  predicate StatusNamed(s: Status, text: string) {
    || (text == "queued" && s == Queued) || (text == "running" && s == Running)
    || (text == "cancelling" && s == Cancelling) || (text == "done" && s == Done)
    || (text == "failed" && s == Failed) || (text == "cancelled" && s == Cancelled)
    || (text == "timeout" && s == Timeout)
  }

  predicate KindNamed(k: EventType, text: string) {
    || (text == "task_enqueued" && k == TaskEnqueued) || (text == "task_cancelled" && k == TaskCancelled)
    || (text == "task_started" && k == TaskStarted) || (text == "task_cancelling" && k == TaskCancelling)
    || (text == "task_cancel_ignored" && k == TaskCancelIgnored) || (text == "task_finished" && k == TaskFinished)
    || (text == "task_recovered" && k == TaskRecovered)
  }

  predicate EventHolds(ev: Json, e: Event) {
    && ev.At("seq") == Num(e.seqNo) && ev.At("atMs") == Num(e.atMs)
    && ev.At("type").Str? && KindNamed(e.kind, ev.At("type").text)
    && ev.At("status").Str? && StatusNamed(e.status, ev.At("status").text)
  }

  predicate TextsHold(row: Json, t: Task) {
    && row.At("id") == Str(t.id) && row.At("channel") == Str(t.channel) && row.At("peerId") == Str(t.peerId)
    && row.At("text") == Str(t.text)
  }

  predicate OutcomeHolds(row: Json, t: Task) {
    && row.At("result") == Str(t.result) && row.At("error") == Str(t.error)
    && row.At("status").Str? && StatusNamed(t.status, row.At("status").text)
  }

  predicate NumbersHold(row: Json, t: Task) {
    && row.At("systemEvent") == Bool(t.systemEvent) && row.At("timeoutMs") == Num(t.timeoutMs)
    && row.At("createdAtMs") == Num(t.createdAtMs) && row.At("startedAtMs") == Num(t.startedAtMs)
    && row.At("finishedAtMs") == Num(t.finishedAtMs) && row.At("nextEventSeq") == Num(t.nextEventSeq)
  }

  predicate LedgerHolds(row: Json, events: seq<Event>) {
    && row.At("eventsCount") == Num(|events|)
    && row.At("lastEventSeq") == Num(if events == [] then 0 else events[|events| - 1].seqNo)
    && row.At("events").Arr? && |row.At("events").items| == |events|
    && forall i :: 0 <= i < |events| ==> EventHolds(row.At("events").items[i], events[i])
  }

  predicate PolicyHolds(row: Json, key: string, policy: Members) {
    if policy == map[] then !row.Has(key) else row.At(key) == Obj(policy)
  }

  // Main result 3. What a row holds, under the names of the file.
  lemma RowFormat(t: Task)
    ensures var row := RowJson(t);
      && TextsHold(row, t) && OutcomeHolds(row, t) && NumbersHold(row, t) && LedgerHolds(row, t.events)
      && PolicyHolds(row, "context", t.context) && PolicyHolds(row, "tools", t.tools)
  {
    var fixed := Obj(FixedMembers(t));
    FixedTexts(t);
    FixedOutcome(t);
    FixedNumbers(t);
    FixedLedger(t);
    NoPolicies(t);
    PoliciesAdded(fixed, RowJson(t), t);
    FixedStay(fixed, RowJson(t), t);
  }

  lemma NoPolicies(t: Task)
    ensures !Obj(FixedMembers(t)).Has("context") && !Obj(FixedMembers(t)).Has("tools")
  {
  }

  lemma FixedTexts(t: Task)
    ensures TextsHold(Obj(FixedMembers(t)), t)
  {
    var fixed := FixedMembers(t);
    assert fixed["id"] == Str(t.id) && fixed["channel"] == Str(t.channel) && fixed["peerId"] == Str(t.peerId);
    assert fixed["text"] == Str(t.text);
  }

  lemma FixedOutcome(t: Task)
    ensures OutcomeHolds(Obj(FixedMembers(t)), t)
  {
    var fixed := FixedMembers(t);
    assert fixed["result"] == Str(t.result) && fixed["error"] == Str(t.error);
    assert fixed["status"] == Str(StatusText(t.status));
  }

  lemma FixedNumbers(t: Task)
    ensures NumbersHold(Obj(FixedMembers(t)), t)
  {
  }

  lemma FixedLedger(t: Task)
    ensures LedgerHolds(Obj(FixedMembers(t)), t.events)
  {
    var fixed, rows := FixedMembers(t), EventRows(t.events);
    assert fixed["events"] == Arr(rows) && fixed["eventsCount"] == Num(|t.events|);
    forall i | 0 <= i < |t.events|
      ensures EventHolds(rows[i], t.events[i])
    {
      EventHeld(t.events[i]);
    }
  }

  lemma EventHeld(e: Event)
    ensures EventHolds(EventJson(e), e)
  {
  }

  lemma FixedStay(fixed: Json, row: Json, t: Task)
    requires forall key :: key != "context" && key != "tools" ==> row.At(key) == fixed.At(key)
    ensures TextsHold(fixed, t) ==> TextsHold(row, t)
    ensures OutcomeHolds(fixed, t) ==> OutcomeHolds(row, t)
    ensures NumbersHold(fixed, t) ==> NumbersHold(row, t)
    ensures LedgerHolds(fixed, t.events) ==> LedgerHolds(row, t.events)
  {
    assert row.At("events") == fixed.At("events");
  }

  lemma PoliciesAdded(fixed: Json, row: Json, t: Task)
    requires fixed.Obj? && !fixed.Has("context") && !fixed.Has("tools")
    requires row == Obj(WithPolicy(WithPolicy(fixed.members, "context", t.context), "tools", t.tools))
    ensures forall key :: key != "context" && key != "tools" ==> row.At(key) == fixed.At(key)
    ensures PolicyHolds(row, "context", t.context) && PolicyHolds(row, "tools", t.tools)
  {
  }

  // What a row says to the reader, with the defaults for what it does not hold.
  predicate EventSays(ev: Json, e: Event) {
    && NumberIs(ev, "seq", e.seqNo, 0) && NumberIs(ev, "atMs", e.atMs, 0)
    && ev.At("type").Str? && KindNamed(e.kind, ev.At("type").text)
    && ev.At("status").Str? && StatusNamed(e.status, ev.At("status").text)
  }

  // An entry counts when it has a type and a positive number.
  predicate Counts(ev: Json) {
    && ev.At("type").Str? && ev.At("type").text != ""
    && ((ev.At("seq").Num? && ev.At("seq").number > 0) || ev.At("seq") == Bool(true))
  }

  ghost predicate EventsSay(items: seq<Json>, events: seq<Event>, pos: seq<nat>) {
    && Increasing(pos, |items|) && |pos| == |events|
    && (forall i :: 0 <= i < |pos| ==> EventSays(items[pos[i]], events[i]))
    && (forall n :: 0 <= n < |items| ==> (n in pos <==> Counts(items[n])))
  }

  ghost predicate LedgerSays(row: Json, events: seq<Event>) {
    if row.At("events").Arr? then exists pos :: EventsSay(row.At("events").items, events, pos) else events == []
  }

  predicate RequestSays(c: Config, row: Json, t: Task) {
    && TextIs(row, "channel", t.channel, "api") && TextIs(row, "peerId", t.peerId, "")
    && TextIs(row, "text", t.text, "")
    && FlagIs(row, "systemEvent", t.systemEvent, false) && NumberIs(row, "timeoutMs", t.timeoutMs, c.defaultTimeoutMs)
    && t.context == (if row.At("context").Obj? then row.At("context").members else map[])
    && t.tools == (if row.At("tools").Obj? then row.At("tools").members else map[])
  }

  predicate TimesSay(row: Json, now: int, t: Task) {
    && TextIs(row, "result", t.result, "") && TextIs(row, "error", t.error, "")
    && NumberIs(row, "createdAtMs", t.createdAtMs, now) && NumberIs(row, "startedAtMs", t.startedAtMs, 0)
    && NumberIs(row, "finishedAtMs", t.finishedAtMs, 0)
  }

  ghost predicate RowSays(c: Config, row: Json, now: int, t: Task) {
    && row.At("id") == Str(t.id) && t.id != ""
    && (if row.Has("status") then row.At("status").Str? && StatusNamed(t.status, row.At("status").text)
        else t.status == Queued)
    && RequestSays(c, row, t) && TimesSay(row, now, t) && LedgerSays(row, t.events)
    && NumberIs(row, "nextEventSeq", t.nextEventSeq, 1)
  }

  // Main result 4. A row without an id is passed over, and what any other gives is the
  // task it describes.
  lemma TaskMeaning(c: Config, row: Json, now: int, read: seq<Task>)
    requires ReadTask(c, row, now) == Ok(read)
    ensures if TextIs(row, "id", "", "") then read == [] else |read| == 1 && RowSays(c, row, now, read[0])
  {
    if !TextIs(row, "id", "", "") {
      LedgerMeaning(row);
      RequestedMeaning(c, row);
      TimesMeaning(row, now);
      StatusMeaning(StringOr<string>(row, "status", "queued").value);
    }
  }

  lemma StatusMeaning(text: string)
    ensures ReadStatus(text).Ok? ==> StatusNamed(ReadStatus(text).value, text)
  {
  }

  lemma RequestedMeaning(c: Config, row: Json)
    requires ReadRequested(c, row).Ok?
    ensures var r := ReadRequested(c, row).value;
      && TextIs(row, "channel", r.channel, "api") && TextIs(row, "peerId", r.peerId, "")
      && TextIs(row, "text", r.text, "")
      && FlagIs(row, "systemEvent", r.systemEvent, false) && NumberIs(row, "timeoutMs", r.timeoutMs, c.defaultTimeoutMs)
      && r.context == (if row.At("context").Obj? then row.At("context").members else map[])
      && r.tools == (if row.At("tools").Obj? then row.At("tools").members else map[])
  {
  }

  lemma TimesMeaning(row: Json, now: int)
    requires ReadTimes(row, now).Ok?
    ensures var x := ReadTimes(row, now).value;
      && TextIs(row, "result", x.result, "") && TextIs(row, "error", x.error, "")
      && NumberIs(row, "createdAtMs", x.createdAtMs, now) && NumberIs(row, "startedAtMs", x.startedAtMs, 0)
      && NumberIs(row, "finishedAtMs", x.finishedAtMs, 0)
  {
  }

  lemma LedgerMeaning(row: Json)
    requires ReadLedger(row).Ok?
    ensures LedgerSays(row, ReadLedger(row).value)
  {
    if row.At("events").Arr? {
      var pos := EventsMeaning(row.At("events").items);
    }
  }

  ghost predicate EventsRead(items: seq<Json>, pos: seq<nat>) {
    ReadEvents(items).Ok? && EventsSay(items, ReadEvents(items).value, pos)
  }

  lemma {:induction false} EventsMeaning(items: seq<Json>) returns (pos: seq<nat>)
    requires ReadEvents(items).Ok?
    ensures EventsRead(items, pos)
  {
    if items == [] {
      pos := [];
    } else {
      var init, last := items[..|items| - 1], items[|items| - 1];
      var sofar := EventsMeaning(init);
      pos := OneMoreRead(init, last, ReadEvents(init).value, ReadEvent(last).value, sofar);
      assert init + [last] == items;
    }
  }

  lemma OneMoreRead(items: seq<Json>, last: Json, events: seq<Event>, more: seq<Event>, before: seq<nat>)
    returns (pos: seq<nat>)
    requires ReadEvents(items) == Ok(events) && EventsSay(items, events, before) && ReadEvent(last) == Ok(more)
    ensures EventsRead(items + [last], pos)
  {
    EventMeaning(last, more);
    pos := OneMoreEntry(items, last, events, more, before);
    assert ReadEvents(items + [last]) == Ok(events + more) by {
      assert (items + [last])[..|items|] == items;
    }
  }

  lemma EventMeaning(ev: Json, read: seq<Event>)
    requires ReadEvent(ev) == Ok(read)
    ensures if Counts(ev) then |read| == 1 && EventSays(ev, read[0]) else read == []
  {
  }

  lemma OneMoreEntry(items: seq<Json>, last: Json, events: seq<Event>, more: seq<Event>, before: seq<nat>)
    returns (pos: seq<nat>)
    requires EventsSay(items, events, before)
    requires if Counts(last) then |more| == 1 && EventSays(last, more[0]) else more == []
    ensures EventsSay(items + [last], events + more, pos)
  {
    pos := OneMoreAtEnd(before, |items|, Counts(last));
  }
}
