// The persistent task queue: its records, and each mutex-held section as one function
// on the queue's three containers. TaskLane runs them against crashes.
module TaskQueue {
  import opened Prelude
  import opened Json
  import opened RuntimePolicy

  datatype Status = Queued | Running | Cancelling | Done | Failed | Cancelled | Timeout {
    predicate Terminal() {
      Done? || Failed? || Cancelled? || Timeout?
    }

    // The worker holds a task exactly in these two states.
    predicate InHand() {
      Running? || Cancelling?
    }
  }

  datatype EventType =
    | TaskEnqueued
    | TaskCancelled
    | TaskStarted
    | TaskCancelling
    | TaskCancelIgnored
    | TaskFinished
    | TaskRecovered

  datatype Event = Event(seqNo: int, kind: EventType, status: Status, atMs: int)

  datatype Task = Task(
    id: string,
    status: Status,
    channel: string,
    peerId: string,
    text: string,
    systemEvent: bool,
    timeoutMs: int,
    context: Members,
    tools: Members,
    events: seq<Event>,
    nextEventSeq: int,
    result: string,
    error: string,
    createdAtMs: int,
    startedAtMs: int,
    finishedAtMs: int)

  datatype Config = Config(maxQueue: int, defaultTimeoutMs: int)

  // What `enqueue` reads from a request body.
  datatype Request = Request(
    channel: string,
    peerId: string,
    text: string,
    systemEvent: bool,
    timeoutMs: int,
    context: Members,
    tools: Members)

  // How the executor came back.
  datatype Outcome = Returned(result: string, tookMs: int) | Threw(message: string)

  // A body with a member of the wrong type makes the JSON library throw.
  datatype Reply = Accepted(task: Task) | Refused(error: string) | Thrown

  // queue_, tasks_ and cancelFlags_.
  datatype Lane = Lane(queue: seq<string>, tasks: map<string, Task>, flags: map<string, bool>)

  const MAX_EVENTS := 256

  // ------------------------------------------------------------------
  // Events

  function NextEvent(t: Task, kind: EventType, status: Status, now: int): Event {
    Event(Max(1, t.nextEventSeq), kind, status, now)
  }

  function AppendEvent(t: Task, kind: EventType, status: Status, now: int): Task {
    var e := NextEvent(t, kind, status, now);
    t.(events := LastN(t.events + [e], MAX_EVENTS), nextEventSeq := e.seqNo + 1)
  }

  // ------------------------------------------------------------------
  // The sections of the API

  // The members in the order of the code; a policy that is not given counts as null.
  function ReadRequest(c: Config, body: Json): Read<Request> {
    var channel :- StringOr(body, "channel", "api");
    var peerId :- StringOr(body, "peerId", "");
    var text :- StringOr(body, "text", "");
    var systemEvent :- BoolOr(body, "systemEvent", false);
    var timeoutMs :- NumberOr(body, "timeoutMs", c.defaultTimeoutMs);
    var context :- NormalizeContext(body.At("context"));
    var tools :- NormalizeTools(body.At("tools"));
    Ok(Request(channel, peerId, text, systemEvent, Max(1000, timeoutMs), context, tools))
  }

  // The members that a body gives have the types the code reads them with.
  predicate WellTyped(body: Json) {
    && body.Obj?
    && (body.Has("channel") ==> body.At("channel").Str?)
    && (body.Has("peerId") ==> body.At("peerId").Str?)
    && (body.Has("text") ==> body.At("text").Str?)
    && (body.Has("systemEvent") ==> body.At("systemEvent").Bool?)
    && (body.Has("timeoutMs") ==> body.At("timeoutMs").Num? || body.At("timeoutMs").Bool?)
  }

  ghost predicate PoliciesAccepted(body: Json) {
    var context, tools := body.At("context"), body.At("tools");
    && (context.Null? || (context.Obj? && LimitGood(context) && ModeGood(context)))
    && (tools.Null? || (tools.Obj? && ListGood(tools, "allow") && ListGood(tools, "deny")))
  }

  // The first fault of the policies.
  ghost function PolicyError(body: Json): string {
    var context, tools := body.At("context"), body.At("tools");
    if !context.Null? && !context.Obj? then "invalid_context_policy"
    else if !LimitGood(context) then "invalid_context_history_limit"
    else if !ModeGood(context) then "invalid_context_carryover"
    else if !tools.Obj? then "invalid_tools_policy"
    else if !ListGood(tools, "allow") then "invalid_tool_allow"
    else "invalid_tool_deny"
  }

  // A second at least, otherwise what is given or configured.
  ghost predicate TimeoutIs(c: Config, body: Json, timeoutMs: int) {
    exists given ::
      NumberIs(body, "timeoutMs", given, c.defaultTimeoutMs) && timeoutMs == if given < 1000 then 1000 else given
  }

  // A body throws exactly when it is ill-typed, and is refused exactly for its policies; an
  // accepted request is what the body says, member by member, with the defaults of the
  // code, under policies the engine keeps.
  ghost predicate ReadsAs(c: Config, body: Json, request: Read<Request>) {
    && (request.Thrown? <==> !WellTyped(body))
    && (request.Refused? <==> WellTyped(body) && !PoliciesAccepted(body))
    && (request.Refused? ==> request.error == PolicyError(body))
    && (request.Ok? ==> Asks(c, body, request.value))
  }

  ghost predicate Asks(c: Config, body: Json, r: Request) {
    && TextIs(body, "channel", r.channel, "api")
    && TextIs(body, "peerId", r.peerId, "")
    && TextIs(body, "text", r.text, "")
    && FlagIs(body, "systemEvent", r.systemEvent, false)
    && TimeoutIs(c, body, r.timeoutMs)
    && ContextIs(body.At("context"), r.context) && ContextStable(r.context)
    && ToolsAre(body.At("tools"), r.tools) && ToolsStable(r.tools)
  }

  lemma RequestMeaning(c: Config, body: Json)
    ensures ReadsAs(c, body, ReadRequest(c, body))
  {
    ContextMeaning(body.At("context"));
    ToolsMeaning(body.At("tools"));
    MembersMeaning(c, body);
    if ReadRequest(c, body).Ok? {
      ContextIsStable(body.At("context"));
      ToolsAreStable(body.At("tools"));
    }
  }

  // The members that are no policy.
  lemma MembersMeaning(c: Config, body: Json)
    ensures var request := ReadRequest(c, body);
      && (!WellTyped(body) ==> request.Thrown?)
      && (request.Ok? ==>
            var r := request.value;
            && TextIs(body, "channel", r.channel, "api") && TextIs(body, "peerId", r.peerId, "")
            && TextIs(body, "text", r.text, "") && FlagIs(body, "systemEvent", r.systemEvent, false)
            && TimeoutIs(c, body, r.timeoutMs))
  {
    if WellTyped(body) {
      var given := NumberOr<string>(body, "timeoutMs", c.defaultTimeoutMs).value;
      assert NumberIs(body, "timeoutMs", given, c.defaultTimeoutMs);
    }
  }

  function NewTask(r: Request, id: string, now: int): Task {
    AppendEvent(
      Task(id, Queued, r.channel, r.peerId, r.text, r.systemEvent, r.timeoutMs, r.context, r.tools,
           [], 1, "", "", now, 0, 0),
      TaskEnqueued, Queued, now)
  }

  function EnqueueReply(c: Config, lane: Lane, body: Json, id: string, now: int): Reply {
    if |lane.queue| >= c.maxQueue then Reply.Refused("task queue is full")
    else ReplyTo(ReadRequest(c, body), id, now)
  }

  function ReplyTo(request: Read<Request>, id: string, now: int): Reply {
    match request
    case Thrown => Reply.Thrown
    case Refused(error) => Reply.Refused(error)
    case Ok(r) => if r.text == "" then Reply.Refused("text is required") else Accepted(NewTask(r, id, now))
  }

  function EnqueueLane(c: Config, lane: Lane, body: Json, id: string, now: int): Lane {
    match EnqueueReply(c, lane, body, id, now)
    case Accepted(t) => lane.(tasks := lane.tasks[id := t], queue := lane.queue + [id])
    case _ => lane
  }

  function Without(queue: seq<string>, id: string): seq<string> {
    if queue == [] then []
    else (if queue[0] == id then [] else [queue[0]]) + Without(queue[1..], id)
  }

  function CancelledTask(t: Task, now: int): Task
    requires !t.status.Terminal()
  {
    match t.status
    case Queued =>
      AppendEvent(t.(status := Cancelled, finishedAtMs := now, error := "Cancelled by user"), TaskCancelled,
          Cancelled, now)
    case Running => AppendEvent(t.(status := Cancelling), TaskCancelling, Cancelling, now)
    case Cancelling => AppendEvent(t, TaskCancelIgnored, Cancelling, now)
  }

  function CancelReply(lane: Lane, id: string, now: int): Reply {
    if id !in lane.tasks then Reply.Refused("task not found")
    else if lane.tasks[id].status.Terminal() then Reply.Refused("task_cancel_not_allowed")
    else Accepted(CancelledTask(lane.tasks[id], now))
  }

  function CancelLane(lane: Lane, id: string, now: int): Lane {
    match CancelReply(lane, id, now)
    case Refused(_) => lane
    case Thrown => lane
    case Accepted(t') =>
      var was := lane.tasks[id].status;
      Lane(if was.Queued? then Without(lane.queue, id) else lane.queue,
           lane.tasks[id := t'],
           if was.Running? then lane.flags[id := true] else lane.flags)
  }

  // ------------------------------------------------------------------
  // The sections of the worker

  function StartedTask(t: Task, now: int): Task {
    AppendEvent(t.(status := Running, startedAtMs := now), TaskStarted, Running, now)
  }

  function StartLane(lane: Lane, now: int): Lane
    requires lane.queue != []
  {
    var id, rest := lane.queue[0], lane.queue[1..];
    if id in lane.tasks then lane.(queue := rest, tasks := lane.tasks[id := StartedTask(lane.tasks[id], now)])
    else lane.(queue := rest)
  }

  // `timeoutMs` is that of the copy handed to the executor.
  function FinishedRecord(t: Task, outcome: Outcome, timeoutMs: int, cancelled: bool, now: int): Task {
    var status :=
      if cancelled then Cancelled
      else if outcome.Threw? then Failed
      else if outcome.tookMs > timeoutMs then Timeout
      else Done;
    var error :=
      if cancelled then "Cancelled while running"
      else if outcome.Threw? then outcome.message
      else if outcome.tookMs > timeoutMs then "Task exceeded timeoutMs"
      else "";
    t.(status := status, result := if outcome.Returned? then outcome.result else "",
       error := error, finishedAtMs := now)
  }

  function FinishedTask(t: Task, outcome: Outcome, timeoutMs: int, cancelled: bool, now: int): Task {
    var t' := FinishedRecord(t, outcome, timeoutMs, cancelled, now);
    AppendEvent(t', TaskFinished, t'.status, now)
  }

  // Reading cancelFlags_ with operator[] leaves a false entry behind.
  function FinishLane(lane: Lane, id: string, outcome: Outcome, timeoutMs: int, now: int): Lane {
    if id !in lane.tasks then lane
    else
      var cancelled := GetOr(lane.flags, id, false);
      lane.(flags := if cancelled then lane.flags - {id} else lane.flags[id := false],
            tasks := lane.tasks[id := FinishedTask(lane.tasks[id], outcome, timeoutMs, cancelled, now)])
  }

  // ------------------------------------------------------------------
  // Restart

  function PositiveSeqs(events: seq<Event>): seq<Event> {
    if events == [] then []
    else (if events[0].seqNo > 0 then [events[0]] else []) + PositiveSeqs(events[1..])
  }

  function ReadRow(row: Task): Task {
    var events := PositiveSeqs(row.events);
    row.(events := events,
         nextEventSeq := if events != [] then Max(row.nextEventSeq, events[|events| - 1].seqNo + 1)
             else row.nextEventSeq)
  }

  function Interrupted(t: Task, now: int): Task {
    t.(status := Cancelled, error := "Recovered after restart: previous run interrupted", finishedAtMs := now)
  }

  function Restore(row: Task, now: int): Task {
    var t := ReadRow(row);
    if t.status.InHand() then AppendEvent(Interrupted(t, now), TaskRecovered, Cancelled, now) else t
  }

  // Rows without an id are skipped.
  function QueuedIds(rows: seq<Task>): seq<string> {
    if rows == [] then []
    else
      var last := rows[|rows| - 1];
      QueuedIds(rows[..|rows| - 1]) + if last.id != "" && last.status.Queued? then [last.id] else []
  }

  function RestoreAll(rows: seq<Task>, now: int): map<string, Task> {
    if rows == [] then map[]
    else
      var before, last := RestoreAll(rows[..|rows| - 1], now), rows[|rows| - 1];
      if last.id == "" then before else before[last.id := Restore(last, now)]
  }

  // loadLocked on the rows of the file, in file order, in a new process.
  function LoadLane(rows: seq<Task>, now: int): Lane {
    Lane(QueuedIds(rows), RestoreAll(rows, now), map[])
  }

  // `rows` is a way to write the table down: every task once, in any order.
  ghost predicate Lists(rows: seq<Task>, tasks: map<string, Task>) {
    && (forall i :: 0 <= i < |rows| ==> rows[i].id in tasks && tasks[rows[i].id] == rows[i])
    && (forall i, j :: 0 <= i < j < |rows| ==> rows[i].id != rows[j].id)
    && (forall id :: id in tasks ==> HasRow(rows, id))
  }

  ghost predicate HasRow(rows: seq<Task>, id: string) {
    exists i :: 0 <= i < |rows| && rows[i].id == id
  }

  // ------------------------------------------------------------------
  // Reading events

  function After(events: seq<Event>, afterSeq: int): seq<Event> {
    if events == [] then []
    else
      var last := events[|events| - 1];
      After(events[..|events| - 1], afterSeq) + if last.seqNo > afterSeq then [last] else []
  }

  // A page keeps the newest events when there are more than the limit.
  function EventPage(events: seq<Event>, limit: int, afterSeq: int): seq<Event> {
    if limit > 0 then LastN(After(events, afterSeq), limit) else After(events, afterSeq)
  }

  // ------------------------------------------------------------------
  // The object

  class Queue {
    const config: Config
    var queue: seq<string>
    var tasks: map<string, Task>
    var cancelFlags: map<string, bool>
    var file: seq<Task>

    function View(): Lane
      reads this
    {
      Lane(queue, tasks, cancelFlags)
    }

    // A task is stored under its own id.
    predicate Keyed()
      reads this
    {
      forall id :: id in tasks ==> tasks[id].id == id
    }

    // A process that has just read `stored`; init() then writes the table back.
    constructor (config: Config, stored: seq<Task>, now: int)
      ensures this.config == config
      ensures View() == LoadLane(stored, now)
      ensures Keyed() && Lists(file, tasks)
    {
      this.config := config;
      queue := [];
      tasks := map[];
      cancelFlags := map[];
      file := stored;
      new;
      for i := 0 to |stored|
        invariant queue == QueuedIds(stored[..i])
        invariant tasks == RestoreAll(stored[..i], now)
        invariant cancelFlags == map[] && Keyed()
      {
        assert stored[..i + 1][..i] == stored[..i];
        if stored[i].id == "" {
          continue;
        }
        if stored[i].status.Queued? {
          queue := queue + [stored[i].id];
        }
        tasks := tasks[stored[i].id := Restore(stored[i], now)];
      }
      assert stored[..|stored|] == stored;
      Save();
    }

    // saveLocked: the table in whatever order the hash map yields it.
    method Save()
      requires Keyed()
      modifies this`file
      ensures Lists(file, tasks)
    {
      var rows: seq<Task> := [];
      var left := tasks.Keys;
      while left != {}
        invariant left <= tasks.Keys
        invariant forall i :: 0 <= i < |rows| ==> rows[i].id in tasks.Keys - left && tasks[rows[i].id] == rows[i]
        invariant forall i, j :: 0 <= i < j < |rows| ==> rows[i].id != rows[j].id
        invariant forall id :: id in tasks.Keys - left ==> HasRow(rows, id)
        decreases left
      {
        var id :| id in left;
        ghost var before := rows;
        rows := rows + [tasks[id]];
        left := left - {id};
        assert rows[|before|].id == id;
        forall k | k in tasks.Keys - left
          ensures HasRow(rows, k)
        {
          if k != id {
            assert HasRow(before, k);
            var i :| 0 <= i < |before| && before[i].id == k;
            assert rows[i].id == k;
          }
        }
      }
      file := rows;
    }

    // `id` is what genTaskId finally produced: one that is not in the table.
    method Enqueue(body: Json, id: string, now: int) returns (reply: Reply)
      requires Keyed() && id !in tasks
      requires Lists(file, tasks)
      modifies this
      ensures reply == EnqueueReply(config, old(View()), body, id, now)
      ensures View() == EnqueueLane(config, old(View()), body, id, now)
      ensures Keyed() && Lists(file, tasks)
    {
      if |queue| >= config.maxQueue {
        return Reply.Refused("task queue is full");
      }
      var request := Parse(config, body);
      match request {
        case Thrown => return Reply.Thrown;
        case Refused(error) => return Reply.Refused(error);
        case Ok(r) =>
          if r.text == "" {
            return Reply.Refused("text is required");
          }
          var t := NewTask(r, id, now);
          Admit(t);
          return Accepted(t);
      }
    }

    // The new record joins the table and the queue.
    method Admit(t: Task)
      requires Keyed()
      modifies this
      ensures View() == old(View()).(tasks := old(tasks)[t.id := t], queue := old(queue) + [t.id])
      ensures Keyed() && Lists(file, tasks)
    {
      tasks := tasks[t.id := t];
      queue := queue + [t.id];
      Save();
    }

    // The members of the body, read one after the other.
    static method Parse(config: Config, body: Json) returns (request: Read<Request>)
      ensures request == ReadRequest(config, body)
      ensures ReadsAs(config, body, request)
    {
      RequestMeaning(config, body);
      var channel: Read<string> := StringOr(body, "channel", "api");
      var peerId: Read<string> := StringOr(body, "peerId", "");
      var text: Read<string> := StringOr(body, "text", "");
      var systemEvent: Read<bool> := BoolOr(body, "systemEvent", false);
      var timeoutMs: Read<int> := NumberOr(body, "timeoutMs", config.defaultTimeoutMs);
      if !(channel.Ok? && peerId.Ok? && text.Ok? && systemEvent.Ok? && timeoutMs.Ok?) {
        return Reading.Thrown;
      }
      var context := NormalizeContext(body.At("context"));
      if !context.Ok? {
        return context.PropagateFailure();
      }
      var tools := NormalizeToolsPolicy(body.At("tools"));
      if !tools.Ok? {
        return tools.PropagateFailure();
      }
      return Ok(Request(channel.value, peerId.value, text.value, systemEvent.value, Max(1000, timeoutMs.value),
                        context.value, tools.value));
    }

    method Cancel(id: string, now: int) returns (reply: Reply)
      requires Keyed()
      requires Lists(file, tasks)
      modifies this
      ensures reply == CancelReply(old(View()), id, now)
      ensures View() == CancelLane(old(View()), id, now)
      ensures Keyed() && Lists(file, tasks)
    {
      if id !in tasks {
        return Reply.Refused("task not found");
      }
      var task := tasks[id];
      if task.status.Queued? {
        task := task.(status := Cancelled, finishedAtMs := now, error := "Cancelled by user");
        queue := Without(queue, id);
        task := AppendEvent(task, TaskCancelled, task.status, now);
      } else if task.status.Running? {
        task := task.(status := Cancelling);
        cancelFlags := cancelFlags[id := true];
        task := AppendEvent(task, TaskCancelling, task.status, now);
      } else if task.status.Cancelling? {
        task := AppendEvent(task, TaskCancelIgnored, task.status, now);
      } else {
        return Reply.Refused("task_cancel_not_allowed");
      }
      tasks := tasks[id := task];
      Save();
      return Accepted(task);
    }

    method Events(id: string, limit: int, afterSeq: int) returns (page: Option<seq<Event>>)
      ensures page == if id in tasks then Some(EventPage(tasks[id].events, limit, afterSeq)) else None
    {
      if id !in tasks {
        return None;
      }
      var events := tasks[id].events;
      var arr: seq<Event> := [];
      for i := 0 to |events|
        invariant arr == After(events[..i], afterSeq)
      {
        assert events[..i + 1][..i] == events[..i];
        if events[i].seqNo <= afterSeq {
          continue;
        }
        arr := arr + [events[i]];
      }
      assert events[..|events|] == events;
      if limit > 0 && |arr| > limit {
        arr := arr[|arr| - limit..];
      }
      return Some(arr);
    }

    // The first locked section of the worker, once the queue is not empty.
    method StartNext(now: int) returns (started: Option<string>)
      requires Keyed() && queue != []
      requires Lists(file, tasks)
      modifies this
      ensures View() == StartLane(old(View()), now)
      ensures started == if old(queue[0]) in old(tasks) then Some(old(queue[0])) else None
      ensures Keyed() && Lists(file, tasks)
    {
      var id := queue[0];
      queue := queue[1..];
      if id !in tasks {
        return None;
      }
      var t := tasks[id].(status := Running, startedAtMs := now);
      tasks := tasks[id := AppendEvent(t, TaskStarted, t.status, now)];
      Save();
      return Some(id);
    }

    // The last locked section of the worker.
    method Finish(id: string, outcome: Outcome, timeoutMs: int, now: int)
      requires Keyed()
      requires Lists(file, tasks)
      modifies this
      ensures View() == FinishLane(old(View()), id, outcome, timeoutMs, now)
      ensures Keyed() && Lists(file, tasks)
    {
      var status, error, result := Done, "", "";
      match outcome {
        case Returned(r, tookMs) =>
          result := r;
          if tookMs > timeoutMs {
            status, error := Timeout, "Task exceeded timeoutMs";
          }
        case Threw(message) =>
          status, error := Failed, message;
      }
      if id !in tasks {
        return;
      }
      if GetOr(cancelFlags, id, false) {
        status, error := Cancelled, "Cancelled while running";
        cancelFlags := cancelFlags - {id};
      } else {
        cancelFlags := cancelFlags[id := false];
      }
      var t := tasks[id].(status := status, result := result, error := error, finishedAtMs := now);
      tasks := tasks[id := AppendEvent(t, TaskFinished, status, now)];
      Save();
    }
  }
}
