// Cron jobs and their JSON form: the strict and the lenient reader, and the writer.
module CronJobs {
  import opened Json
  import opened CronExpr
  import opened CronCalendar

  datatype Payload = Payload(kind: string, text: string, model: string, thinking: string, timeoutSeconds: int)

  datatype Delivery = Delivery(mode: string, channel: string, to: string, bestEffort: bool)

  datatype Job = Job(
    id: string,
    name: string,
    description: string,
    timing: Timing,
    nextRunAt: int,
    sessionKey: string,
    message: string,
    sessionTarget: string,
    wakeMode: string,
    agentId: string,
    deleteAfterRun: bool,
    payload: Payload,
    delivery: Delivery,
    enabled: bool,
    consecutiveErrors: int,
    lastRunAt: int,
    lastSuccessAt: int)

  // kind, everyMs, atIso, cronExpr and tz of a job.
  datatype Timing = Timing(kind: string, everyMs: int, atIso: string, cronExpr: string, tz: string)

  // parseIso8601Utc: milliseconds, or a number that is not positive.
  type IsoParser = string -> int

  // ------------------------------------------------------------------
  // Reading members: a refusal with its message, or an exception (a member of the wrong type)

  datatype Refusal =
    | JobIdRequired
    | InvalidIsoTime
    | EveryMsNotPositive
    | BadCron(error: ExprError)
    | UnsupportedKind
    | BadSessionTarget
    | BadPayloadKind
    | MainNeedsSystemEvent
    | IsolatedNeedsAgentTurn
    | TextRequired
    | BadWakeMode
    | DeliveryNotObject
    | BadDeliveryMode
    | DeliveryOnlyForIsolated

  type Result<T> = Reading<T, Refusal>

  function Need(condition: bool, error: Refusal): Result<()> {
    if condition then Ok(()) else Refused(error)
  }

  // ------------------------------------------------------------------
  // The reader, part by part

  // A member of the schedule object when there is one, with the flat member as default.
  function ScheduledString(src: Json, key: string, default: string): Result<string> {
    var flat :- StringOr(src, key, default);
    if src.At("schedule").Obj? then StringOr(src.At("schedule"), key, flat) else Ok(flat)
  }

  function ScheduledEveryMs(src: Json): Result<int> {
    var flat :- NumberOr(src, "everyMs", 0);
    if src.At("schedule").Obj? then NumberOr(src.At("schedule"), "everyMs", flat) else Ok(flat)
  }

  function ScheduledExpr(src: Json): Result<string> {
    var schedule := src.At("schedule");
    if schedule.Obj? then
      if schedule.Has("expr") then StringOr(schedule, "expr", "")
      else
        var flat :- StringOr(src, "cron", "");
        StringOr(schedule, "cron", flat)
    else StringOr(src, "cron", "")
  }

  function ReadTiming(src: Json): Result<Timing> {
    var kind :- ScheduledString(src, "kind", "every");
    var everyMs :- ScheduledEveryMs(src);
    var atIso :- ScheduledString(src, "at", "");
    var expr :- ScheduledExpr(src);
    var tz :- ScheduledString(src, "tz", "UTC");
    Ok(Timing(kind, everyMs, atIso, expr, tz))
  }

  function CheckTiming(iso: IsoParser, t: Timing): Result<()> {
    if t.kind == "at" then Need(iso(t.atIso) > 0, InvalidIsoTime)
    else if t.kind == "every" then Need(t.everyMs > 0, EveryMsNotPositive)
    else if t.kind == "cron" then
      match ReadExpr(t.cronExpr)
      case Parsed(_) => Ok(())
      case Invalid(error) => Refused(BadCron(error))
      case Threw => Thrown
    else Refused(UnsupportedKind)
  }

  function PayloadOf(src: Json): Json {
    if src.At("payload").Obj? then src.At("payload") else Obj(map[])
  }

  datatype Route = Route(target: string, payloadKind: string)

  function ReadRoute(src: Json, strict: bool): Result<Route> {
    var given :- StringOr(src, "sessionTarget", "");
    var legacyKey :- StringOr(src, "sessionKey", "main");
    var givenKind :- StringOr(PayloadOf(src), "kind", "");
    var target :=
      if given != "" then given
      else if givenKind == "agentTurn" then "isolated"
      else if legacyKey != "" && legacyKey != "main" then "isolated"
      else "main";
    var _ :- Need(target == "main" || target == "isolated", BadSessionTarget);
    var kind := if givenKind != "" then givenKind else if target == "main" then "systemEvent" else "agentTurn";
    var _ :- Need(kind == "systemEvent" || kind == "agentTurn", BadPayloadKind);
    var _ :- Need(strict && target == "main" ==> kind == "systemEvent", MainNeedsSystemEvent);
    var _ :- Need(strict && target == "isolated" ==> kind == "agentTurn", IsolatedNeedsAgentTurn);
    Ok(Route(target, kind))
  }

  function FirstNonEmpty(a: string, b: Result<string>): Result<string> {
    if a != "" then Ok(a) else b
  }

  function ReadText(src: Json, kind: string): Result<string> {
    var payload := PayloadOf(src);
    var first := if kind == "systemEvent" then "text" else "message";
    var second := if kind == "systemEvent" then "message" else "text";
    var a :- StringOr(payload, first, "");
    var b :- FirstNonEmpty(a, StringOr(payload, second, ""));
    FirstNonEmpty(b, StringOr(src, "message", ""))
  }

  function ReadPayload(src: Json, kind: string, strict: bool): Result<Payload> {
    var text :- ReadText(src, kind);
    var _ :- Need(strict ==> text != "", TextRequired);
    var model :- StringOr(PayloadOf(src), "model", "");
    var thinking :- StringOr(PayloadOf(src), "thinking", "");
    var timeoutSeconds :- NumberOr(PayloadOf(src), "timeoutSeconds", 0);
    Ok(Payload(kind, text, model, thinking, timeoutSeconds))
  }

  predicate WakeModeOk(mode: string) {
    mode == "now" || mode == "next-heartbeat"
  }

  predicate DeliveryModeOk(mode: string) {
    mode == "none" || mode == "announce"
  }

  function ReadDelivery(src: Json, target: string, strict: bool): Result<Delivery> {
    var usual := if target == "isolated" then "announce" else "none";
    if !src.Has("delivery") then Ok(Delivery(usual, "last", "", false))
    else
      var given := src.At("delivery");
      var _ :- Need(given.Obj?, DeliveryNotObject);
      var mode :- StringOr(given, "mode", usual);
      var channel :- StringOr(given, "channel", "last");
      var to :- StringOr(given, "to", "");
      var bestEffort :- BoolOr(given, "bestEffort", false);
      var _ :- Need(DeliveryModeOk(mode), BadDeliveryMode);
      var _ :- Need(strict && target != "isolated" ==> mode == "none",
                    DeliveryOnlyForIsolated);
      Ok(Delivery(mode, channel, to, bestEffort))
  }

  // When the first run is due, for a timing that passed its check.
  function FirstRun(iso: IsoParser, t: Timing, now: nat): int {
    if t.kind == "at" then iso(t.atIso)
    else if t.kind == "every" then now + IntervalOf(t.everyMs)
    else if ReadExpr(t.cronExpr).Parsed? then NextRun(ReadExpr(t.cronExpr).schedule, now)
    else -1
  }

  // An interval is never shorter than a second.
  function IntervalOf(everyMs: int): int {
    if everyMs < 1000 then 1000 else everyMs
  }

  function NextRunAt(iso: IsoParser, t: Timing, given: int, now: nat): int {
    if given > 0 then given else FirstRun(iso, t, now)
  }

  function Prefix8(s: string): string {
    if |s| <= 8 then s else s[..8]
  }

  datatype Status = Status(
    agentId: string,
    enabled: bool,
    deleteAfterRun: bool,
    consecutiveErrors: int,
    lastRunAt: int,
    lastSuccessAt: int,
    nextRunAt: int)

  function ReadStatus(src: Json, kind: string): Result<Status> {
    var agentId :- StringOr(src, "agentId", "");
    var enabled :- BoolOr(src, "enabled", true);
    var deleteAfterRun :- BoolOr(src, "deleteAfterRun", kind == "at");
    var consecutiveErrors :- NumberOr(src, "consecutiveErrors", 0);
    var lastRunAt :- NumberOr(src, "lastRunAt", 0);
    var lastSuccessAt :- NumberOr(src, "lastSuccessAt", 0);
    var nextRunAt :- NumberOr(src, "nextRunAt", 0);
    Ok(Status(agentId, enabled, deleteAfterRun, consecutiveErrors, lastRunAt, lastSuccessAt, nextRunAt))
  }

  function ReadId(src: Json, fallbackId: string): Result<string> {
    var id :- if fallbackId == "" then StringOr(src, "id", "") else Ok(fallbackId);
    var _ :- Need(id != "", JobIdRequired);
    Ok(id)
  }

  function ReadWakeMode(src: Json): Result<string> {
    var mode :- StringOr(src, "wakeMode", "now");
    var _ :- Need(WakeModeOk(mode), BadWakeMode);
    Ok(mode)
  }

  datatype Head = Head(id: string, name: string, description: string, timing: Timing)

  function ReadHead(iso: IsoParser, src: Json, fallbackId: string): Result<Head> {
    var id :- ReadId(src, fallbackId);
    var name :- StringOr(src, "name", "job-" + Prefix8(id));
    var description :- StringOr(src, "description", "");
    var timing :- ReadTiming(src);
    var _ :- CheckTiming(iso, timing);
    Ok(Head(id, name, description, timing))
  }

  datatype Body = Body(target: string, payload: Payload, sessionKey: string, wakeMode: string, delivery: Delivery)

  function ReadBody(src: Json, id: string, strict: bool): Result<Body> {
    var route :- ReadRoute(src, strict);
    var payload :- ReadPayload(src, route.payloadKind, strict);
    var sessionKey :- StringOr(src, "sessionKey", if route.target == "main" then "main" else "cron:" + id);
    var wakeMode :- ReadWakeMode(src);
    var delivery :- ReadDelivery(src, route.target, strict);
    Ok(Body(route.target, payload, sessionKey, wakeMode, delivery))
  }

  function MakeJob(h: Head, b: Body, s: Status, nextRunAt: int): Job {
    Job(h.id, h.name, h.description, h.timing, nextRunAt, b.sessionKey, b.payload.text, b.target, b.wakeMode, s.agentId,
        s.deleteAfterRun, b.payload, b.delivery, s.enabled, s.consecutiveErrors, s.lastRunAt, s.lastSuccessAt)
  }

  // parseJobSpec
  function ParseJobSpec(iso: IsoParser, src: Json, fallbackId: string, now: nat, strict: bool): Result<Job> {
    var head :- ReadHead(iso, src, fallbackId);
    var body :- ReadBody(src, head.id, strict);
    var status :- ReadStatus(src, head.timing.kind);
    Ok(MakeJob(head, body, status, NextRunAt(iso, head.timing, status.nextRunAt, now)))
  }

  // ------------------------------------------------------------------
  // The writer

  function PayloadJson(p: Payload): Json {
    Obj(map["kind" := Str(p.kind), "model" := Str(p.model), "thinking" := Str(p.thinking),
            "timeoutSeconds" := Num(p.timeoutSeconds), "text" := Str(p.text), "message" := Str(p.text)])
  }

  function ScheduleJson(t: Timing): Json {
    Obj(map["kind" := Str(t.kind), "everyMs" := Num(t.everyMs), "at" := Str(t.atIso),
            "expr" := Str(t.cronExpr), "tz" := Str(t.tz)])
  }

  function DeliveryJson(d: Delivery): Json {
    Obj(map["mode" := Str(d.mode), "channel" := Str(d.channel), "to" := Str(d.to), "bestEffort" := Bool(d.bestEffort)])
  }

  // jobToJson
  function JobToJson(j: Job): Json {
    Obj(map[
      "id" := Str(j.id),
      "name" := Str(j.name),
      "description" := Str(j.description),
      "kind" := Str(j.timing.kind),
      "everyMs" := Num(j.timing.everyMs),
      "at" := Str(j.timing.atIso),
      "cron" := Str(j.timing.cronExpr),
      "tz" := Str(j.timing.tz),
      "schedule" := ScheduleJson(j.timing),
      "nextRunAt" := Num(j.nextRunAt),
      "sessionKey" := Str(j.sessionKey),
      "message" := Str(j.message),
      "sessionTarget" := Str(j.sessionTarget),
      "wakeMode" := Str(j.wakeMode),
      "agentId" := Str(j.agentId),
      "deleteAfterRun" := Bool(j.deleteAfterRun),
      "payload" := PayloadJson(j.payload),
      "delivery" := DeliveryJson(j.delivery),
      "enabled" := Bool(j.enabled),
      "consecutiveErrors" := Num(j.consecutiveErrors),
      "lastRunAt" := Num(j.lastRunAt),
      "lastSuccessAt" := Num(j.lastSuccessAt)])
  }

  // ------------------------------------------------------------------
  // The contract of a job

  ghost predicate TimingOk(iso: IsoParser, t: Timing) {
    CheckTiming(iso, t).Ok?
  }

  ghost predicate JobOk(iso: IsoParser, j: Job) {
    && j.id != ""
    && TimingOk(iso, j.timing)
    && ((j.sessionTarget == "main" && j.payload.kind == "systemEvent" && j.delivery.mode == "none")
        || (j.sessionTarget == "isolated" && j.payload.kind == "agentTurn"))
    && j.payload.text != "" && j.message == j.payload.text
    && WakeModeOk(j.wakeMode) && DeliveryModeOk(j.delivery.mode)
  }

  // A job that no loop will ever pick up again is a disabled one-shot.
  ghost predicate NotStuck(j: Job) {
    j.nextRunAt > 0 || (j.timing.kind == "at" && !j.enabled)
  }

  // Main result 1. A timing that passed its check has a first run.
  lemma FirstRunIsPositive(iso: IsoParser, t: Timing, now: nat)
    requires TimingOk(iso, t)
    ensures FirstRun(iso, t, now) > 0
  {
    if t.kind == "cron" {
      ParsedIsUsable(t.cronExpr);
      NextRunMeaning(ReadExpr(t.cronExpr).schedule, now);
    }
  }

  // Main result 2. Whatever the strict reader accepts meets the contract and is scheduled.
  lemma StrictMeetsContract(iso: IsoParser, src: Json, fallbackId: string, now: nat)
    requires ParseJobSpec(iso, src, fallbackId, now, true).Ok?
    ensures
      var j := ParseJobSpec(iso, src, fallbackId, now, true).value;
      JobOk(iso, j) && j.nextRunAt > 0 && (fallbackId != "" ==> j.id == fallbackId)
  {
    HeadMeetsContract(iso, src, fallbackId);
    var head := ReadHead(iso, src, fallbackId).value;
    BodyMeetsContract(src, head.id);
    FirstRunIsPositive(iso, head.timing, now);
  }

  lemma HeadMeetsContract(iso: IsoParser, src: Json, fallbackId: string)
    requires ReadHead(iso, src, fallbackId).Ok?
    ensures
      var h := ReadHead(iso, src, fallbackId).value;
      h.id != "" && TimingOk(iso, h.timing) && (fallbackId != "" ==> h.id == fallbackId)
  {
  }

  lemma BodyMeetsContract(src: Json, id: string)
    requires ReadBody(src, id, true).Ok?
    ensures
      var b := ReadBody(src, id, true).value;
      && ((b.target == "main" && b.payload.kind == "systemEvent" && b.delivery.mode == "none")
          || (b.target == "isolated" && b.payload.kind == "agentTurn"))
      && b.payload.text != "" && WakeModeOk(b.wakeMode) && DeliveryModeOk(b.delivery.mode)
  {
    RouteIsCoupled(src);
    var route := ReadRoute(src, true).value;
    PayloadIsOk(src, route.payloadKind);
    DeliveryIsOk(src, route.target);
  }

  lemma RouteIsCoupled(src: Json)
    requires ReadRoute(src, true).Ok?
    ensures
      var r := ReadRoute(src, true).value;
      (r.target == "main" && r.payloadKind == "systemEvent") || (r.target == "isolated" && r.payloadKind == "agentTurn")
  {
  }

  lemma PayloadIsOk(src: Json, kind: string)
    requires ReadPayload(src, kind, true).Ok?
    ensures ReadPayload(src, kind, true).value.kind == kind && ReadPayload(src, kind, true).value.text != ""
  {
  }

  lemma DeliveryIsOk(src: Json, target: string)
    requires target == "main" || target == "isolated"
    requires ReadDelivery(src, target, true).Ok?
    ensures
      var mode := ReadDelivery(src, target, true).value.mode;
      DeliveryModeOk(mode) && (target == "main" ==> mode == "none")
  {
  }

  // ------------------------------------------------------------------
  // Reading back what was written

  lemma ReadBackNames(j: Job)
    ensures StringOr<Refusal>(JobToJson(j), "id", "") == Ok(j.id)
    ensures forall d :: StringOr<Refusal>(JobToJson(j), "name", d) == Ok(j.name)
    ensures forall d :: StringOr<Refusal>(JobToJson(j), "description", d) == Ok(j.description)
    ensures forall d :: StringOr<Refusal>(JobToJson(j), "sessionKey", d) == Ok(j.sessionKey)
    ensures forall d :: StringOr<Refusal>(JobToJson(j), "wakeMode", d) == Ok(j.wakeMode)
  {
  }

  lemma ReadBackTiming(j: Job)
    ensures ReadTiming(JobToJson(j)) == Ok(j.timing)
  {
    var src, schedule := JobToJson(j), ScheduleJson(j.timing);
    assert src.At("schedule") == schedule;
    assert StringOr<Refusal>(src, "kind", "every") == Ok(j.timing.kind);
    assert NumberOr<Refusal>(src, "everyMs", 0) == Ok(j.timing.everyMs);
    assert StringOr<Refusal>(src, "at", "") == Ok(j.timing.atIso);
    assert StringOr<Refusal>(src, "tz", "UTC") == Ok(j.timing.tz);
    ReadBackSchedule(j.timing);
  }

  lemma ReadBackSchedule(t: Timing)
    ensures StringOr<Refusal>(ScheduleJson(t), "kind", t.kind) == Ok(t.kind)
    ensures NumberOr<Refusal>(ScheduleJson(t), "everyMs", t.everyMs) == Ok(t.everyMs)
    ensures StringOr<Refusal>(ScheduleJson(t), "at", t.atIso) == Ok(t.atIso)
    ensures ScheduleJson(t).Has("expr") && StringOr<Refusal>(ScheduleJson(t), "expr", "") == Ok(t.cronExpr)
    ensures StringOr<Refusal>(ScheduleJson(t), "tz", t.tz) == Ok(t.tz)
  {
  }

  lemma ReadBackRoute(iso: IsoParser, j: Job, strict: bool)
    requires JobOk(iso, j)
    ensures ReadRoute(JobToJson(j), strict) == Ok(Route(j.sessionTarget, j.payload.kind))
  {
    RouteMembersAreBack(j);
  }

  lemma RouteMembersAreBack(j: Job)
    ensures var src := JobToJson(j);
      && (forall d :: StringOr<Refusal>(src, "sessionTarget", d) == Ok(j.sessionTarget))
      && (forall d :: StringOr<Refusal>(src, "sessionKey", d) == Ok(j.sessionKey))
      && PayloadOf(src) == PayloadJson(j.payload)
      && (forall d :: StringOr<Refusal>(PayloadJson(j.payload), "kind", d) == Ok(j.payload.kind))
  {
  }

  lemma ReadBackPayload(iso: IsoParser, j: Job, strict: bool)
    requires JobOk(iso, j)
    ensures ReadPayload(JobToJson(j), j.payload.kind, strict) == Ok(j.payload)
  {
    var src, p := JobToJson(j), PayloadJson(j.payload);
    assert PayloadOf(src) == p;
    assert StringOr<Refusal>(p, "text", "") == Ok(j.payload.text) &&
        StringOr<Refusal>(p, "message", "") == Ok(j.payload.text);
    assert ReadText(src, j.payload.kind) == Ok(j.payload.text);
    assert StringOr<Refusal>(p, "model", "") == Ok(j.payload.model);
    assert StringOr<Refusal>(p, "thinking", "") == Ok(j.payload.thinking);
    assert NumberOr<Refusal>(p, "timeoutSeconds", 0) == Ok(j.payload.timeoutSeconds);
  }

  lemma ReadBackDelivery(iso: IsoParser, j: Job, strict: bool)
    requires JobOk(iso, j)
    ensures ReadDelivery(JobToJson(j), j.sessionTarget, strict) == Ok(j.delivery)
  {
    var src, d := JobToJson(j), DeliveryJson(j.delivery);
    assert src.Has("delivery") && src.At("delivery") == d;
    var usual := if j.sessionTarget == "isolated" then "announce" else "none";
    assert StringOr<Refusal>(d, "mode", usual) == Ok(j.delivery.mode);
    assert StringOr<Refusal>(d, "channel", "last") == Ok(j.delivery.channel);
    assert StringOr<Refusal>(d, "to", "") == Ok(j.delivery.to);
    assert BoolOr<Refusal>(d, "bestEffort", false) == Ok(j.delivery.bestEffort);
  }

  lemma ReadBackStatus(j: Job)
    ensures ReadStatus(JobToJson(j), j.timing.kind)
         == Ok(Status(j.agentId, j.enabled, j.deleteAfterRun, j.consecutiveErrors, j.lastRunAt, j.lastSuccessAt,
             j.nextRunAt))
  {
    var src := JobToJson(j);
    assert StringOr<Refusal>(src, "agentId", "") == Ok(j.agentId);
    assert BoolOr<Refusal>(src, "enabled", true) == Ok(j.enabled);
    assert BoolOr<Refusal>(src, "deleteAfterRun", j.timing.kind == "at") == Ok(j.deleteAfterRun);
    assert NumberOr<Refusal>(src, "consecutiveErrors", 0) == Ok(j.consecutiveErrors);
    assert NumberOr<Refusal>(src, "lastRunAt", 0) == Ok(j.lastRunAt);
    assert NumberOr<Refusal>(src, "lastSuccessAt", 0) == Ok(j.lastSuccessAt);
    assert NumberOr<Refusal>(src, "nextRunAt", 0) == Ok(j.nextRunAt);
  }

  // What reading a written job changes: a next run that is not positive is computed anew.
  function Refreshed(iso: IsoParser, j: Job, now: nat): Job {
    j.(nextRunAt := NextRunAt(iso, j.timing, j.nextRunAt, now))
  }

  // Main result 3. Reading a written job, strictly or leniently, gives back the same job,
  // all fields, except that a next run that is not positive is computed anew.
  lemma JobRoundTrip(iso: IsoParser, j: Job, now: nat, strict: bool)
    requires JobOk(iso, j)
    ensures ParseJobSpec(iso, JobToJson(j), j.id, now, strict) == Ok(Refreshed(iso, j, now))
    ensures j.nextRunAt > 0 ==> ParseJobSpec(iso, JobToJson(j), j.id, now, strict) == Ok(j)
  {
    ReadBackNames(j);
    ReadBackTiming(j);
    ReadBackRoute(iso, j, strict);
    ReadBackPayload(iso, j, strict);
    ReadBackDelivery(iso, j, strict);
    ReadBackStatus(j);
    var src := JobToJson(j);
    HeadIsBack(iso, src, j);
    BodyIsBack(iso, src, j, strict);
  }

  lemma HeadIsBack(iso: IsoParser, src: Json, j: Job)
    requires JobOk(iso, j)
    requires forall d :: StringOr<Refusal>(src, "name", d) == Ok(j.name)
    requires forall d :: StringOr<Refusal>(src, "description", d) == Ok(j.description)
    requires ReadTiming(src) == Ok(j.timing)
    ensures ReadHead(iso, src, j.id) == Ok(Head(j.id, j.name, j.description, j.timing))
  {
  }

  lemma BodyIsBack(iso: IsoParser, src: Json, j: Job, strict: bool)
    requires JobOk(iso, j)
    requires forall d :: StringOr<Refusal>(src, "sessionKey", d) == Ok(j.sessionKey)
    requires forall d :: StringOr<Refusal>(src, "wakeMode", d) == Ok(j.wakeMode)
    requires ReadRoute(src, strict) == Ok(Route(j.sessionTarget, j.payload.kind))
    requires ReadPayload(src, j.payload.kind, strict) == Ok(j.payload)
    requires ReadDelivery(src, j.sessionTarget, strict) == Ok(j.delivery)
    ensures ReadBody(src, j.id, strict) == Ok(Body(j.sessionTarget, j.payload, j.sessionKey, j.wakeMode, j.delivery))
  {
  }
}
