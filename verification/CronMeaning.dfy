// What a job document means, member by member, and what a patch does to a job: stated on
// the documents, without the reader and without the merge.
module CronMeaning {
  import opened Json
  import MergePatch
  import CronExpr
  import opened CronCalendar
  import opened CronJobs

  // ------------------------------------------------------------------
  // The parts of a job

  // A schedule member counts before the flat member of the same name.
  predicate ScheduledTextIs(src: Json, key: string, value: string, default: string) {
    if src.At("schedule").Has(key) then src.At("schedule").At(key) == Str(value) else TextIs(src, key, value, default)
  }

  predicate ScheduleIs(src: Json, t: Timing) {
    var schedule := src.At("schedule");
    && ScheduledTextIs(src, "kind", t.kind, "every")
    && ScheduledTextIs(src, "at", t.atIso, "")
    && ScheduledTextIs(src, "tz", t.tz, "UTC")
    && (if schedule.Has("everyMs") then NumberIs(schedule, "everyMs", t.everyMs, 0)
        else NumberIs(src, "everyMs", t.everyMs, 0))
    && (if schedule.Has("expr") then schedule.At("expr") == Str(t.cronExpr)
        else if schedule.Has("cron") then schedule.At("cron") == Str(t.cronExpr)
        else TextIs(src, "cron", t.cronExpr, ""))
  }

  lemma ReadScheduleMeaning(src: Json)
    requires ReadTiming(src).Ok?
    ensures ScheduleIs(src, ReadTiming(src).value)
  {
  }

  // When the first run is due.
  ghost predicate FirstRunIs(iso: IsoParser, t: Timing, now: nat, at: int) {
    && (t.kind == "at" ==> at == iso(t.atIso))
    && (t.kind == "every" ==> at - now >= 1000 && at - now >= t.everyMs && (at - now == 1000 || at - now == t.everyMs))
    && (t.kind == "cron" ==>
          CronExpr.ReadExpr(t.cronExpr).Parsed? && IsNextRun(CronExpr.ReadExpr(t.cronExpr).schedule, now, at))
  }

  lemma FirstRunExactly(iso: IsoParser, t: Timing, now: nat, at: int)
    requires TimingOk(iso, t)
    ensures FirstRunIs(iso, t, now, at) <==> at == FirstRun(iso, t, now)
  {
    if t.kind == "cron" {
      var schedule := CronExpr.ReadExpr(t.cronExpr).schedule;
      CronExpr.ParsedIsUsable(t.cronExpr);
      NextRunMeaning(schedule, now);
      if IsNextRun(schedule, now, at) {
        OneNextRun(schedule, now, at, NextRun(schedule, now));
      }
    }
  }

  lemma OneNextRun(s: CronExpr.Schedule, fromMillis: nat, a: int, b: int)
    requires IsNextRun(s, fromMillis, a) && IsNextRun(s, fromMillis, b)
    ensures a == b
  {
    assert a / 60000 == b / 60000;
  }

  // A given next run that is positive stands; otherwise the job is scheduled anew.
  ghost predicate NextRunIs(iso: IsoParser, src: Json, t: Timing, now: nat, at: int) {
    exists given ::
      NumberIs(src, "nextRunAt", given, 0) && if given > 0 then at == given else FirstRunIs(iso, t, now, at)
  }

  // Where the job runs, when the document does not say: by its payload, or by its session.
  predicate TargetIs(src: Json, target: string) {
    var given := src.At("sessionTarget");
    if given.Str? && given.text != "" then target == given.text
    else if src.At("payload").At("kind") == Str("agentTurn") then target == "isolated"
    else if !src.Has("sessionKey") || src.At("sessionKey") == Str("") || src.At("sessionKey") == Str("main") then
      target == "main"
    else target == "isolated"
  }

  predicate PayloadKindIs(src: Json, target: string, kind: string) {
    var given := src.At("payload").At("kind");
    if given.Str? && given.text != "" then kind == given.text
    else kind == if target == "main" then "systemEvent" else "agentTurn"
  }

  // The first of the three places that holds a text.
  predicate MessageIs(src: Json, kind: string, message: string) {
    var payload := src.At("payload");
    var first := payload.At(if kind == "systemEvent" then "text" else "message");
    var second := payload.At(if kind == "systemEvent" then "message" else "text");
    if first.Str? && first.text != "" then message == first.text
    else if second.Str? && second.text != "" then message == second.text
    else TextIs(src, "message", message, "")
  }

  predicate PayloadIs(src: Json, target: string, p: Payload) {
    && PayloadKindIs(src, target, p.kind)
    && MessageIs(src, p.kind, p.text)
    && TextIs(src.At("payload"), "model", p.model, "")
    && TextIs(src.At("payload"), "thinking", p.thinking, "")
    && NumberIs(src.At("payload"), "timeoutSeconds", p.timeoutSeconds, 0)
  }

  predicate DeliveryIs(src: Json, target: string, d: Delivery) {
    && TextIs(src.At("delivery"), "mode", d.mode, if target == "isolated" then "announce" else "none")
    && TextIs(src.At("delivery"), "channel", d.channel, "last")
    && TextIs(src.At("delivery"), "to", d.to, "")
    && FlagIs(src.At("delivery"), "bestEffort", d.bestEffort, false)
  }

  // ------------------------------------------------------------------
  // The reader

  ghost predicate HeadIs(iso: IsoParser, src: Json, j: Job) {
    && TextIs(src, "name", j.name, "job-" + if |j.id| <= 8 then j.id else j.id[..8])
    && TextIs(src, "description", j.description, "")
    && ScheduleIs(src, j.timing)
  }

  ghost predicate BodyIs(src: Json, j: Job) {
    && TargetIs(src, j.sessionTarget)
    && PayloadIs(src, j.sessionTarget, j.payload) && j.message == j.payload.text
    && TextIs(src, "sessionKey", j.sessionKey, if j.sessionTarget == "main" then "main" else "cron:" + j.id)
    && TextIs(src, "wakeMode", j.wakeMode, "now")
    && DeliveryIs(src, j.sessionTarget, j.delivery)
  }

  ghost predicate StatusIs(src: Json, j: Job) {
    && TextIs(src, "agentId", j.agentId, "")
    && FlagIs(src, "enabled", j.enabled, true)
    && FlagIs(src, "deleteAfterRun", j.deleteAfterRun, j.timing.kind == "at")
    && NumberIs(src, "consecutiveErrors", j.consecutiveErrors, 0)
    && NumberIs(src, "lastRunAt", j.lastRunAt, 0)
    && NumberIs(src, "lastSuccessAt", j.lastSuccessAt, 0)
  }

  // The job is what the document says, member by member, with the defaults of the code.
  ghost predicate Means(iso: IsoParser, src: Json, now: nat, j: Job) {
    HeadIs(iso, src, j) && BodyIs(src, j) && StatusIs(src, j) && NextRunIs(iso, src, j.timing, now, j.nextRunAt)
  }

  // ------------------------------------------------------------------
  // Exactly which documents are read, and as what

  // The members that are looked at, whether or not they count, hold the right type.
  predicate WellTyped(src: Json, kind: string) {
    src.Obj? && ScheduleTyped(src) && RouteTyped(src) && MessageTyped(src.At("payload"), kind)
  }

  predicate ScheduleTyped(src: Json) {
    && TextOrNone(src, "kind") && TextOrNone(src, "at") && TextOrNone(src, "tz")
    && (src.Has("everyMs") ==> src.At("everyMs").Num? || src.At("everyMs").Bool?)
    && (!src.At("schedule").Has("expr") ==> TextOrNone(src, "cron"))
  }

  predicate RouteTyped(src: Json) {
    && TextOrNone(src, "sessionTarget") && TextOrNone(src, "sessionKey") && TextOrNone(src.At("payload"), "kind")
    && (src.Has("delivery") ==> src.At("delivery").Obj?)
  }

  predicate MessageTyped(payload: Json, kind: string) {
    var first := if kind == "systemEvent" then "text" else "message";
    var second := if kind == "systemEvent" then "message" else "text";
    TextOrNone(payload, first) && (!payload.Has(first) || payload.At(first) == Str("") ==> TextOrNone(payload, second))
  }

  // What is refused of a well-typed document, strictly and leniently.
  ghost predicate TimingAllowed(iso: IsoParser, t: Timing) {
    || (t.kind == "at" && iso(t.atIso) > 0)
    || (t.kind == "every" && t.everyMs > 0)
    || (t.kind == "cron" && CronExpr.ReadExpr(t.cronExpr).Parsed?)
  }

  predicate RouteAllowed(target: string, kind: string, strict: bool) {
    || (target == "main" && (kind == "systemEvent" || (kind == "agentTurn" && !strict)))
    || (target == "isolated" && (kind == "agentTurn" || (kind == "systemEvent" && !strict)))
  }

  predicate DeliveryAllowed(target: string, mode: string, strict: bool) {
    mode == "none" || (mode == "announce" && (strict ==> target == "isolated"))
  }

  ghost predicate Allowed(iso: IsoParser, j: Job, strict: bool) {
    && TimingAllowed(iso, j.timing)
    && RouteAllowed(j.sessionTarget, j.payload.kind, strict)
    && (strict ==> j.payload.text != "")
    && (j.wakeMode == "now" || j.wakeMode == "next-heartbeat")
    && DeliveryAllowed(j.sessionTarget, j.delivery.mode, strict)
  }

  lemma TimingExactly(src: Json, t: Timing)
    ensures ReadTiming(src) == Ok(t) <==> src.Obj? && ScheduleTyped(src) && ScheduleIs(src, t)
  {
    TimingOfTyped(src);
    if ReadTiming(src).Ok? {
      ReadScheduleMeaning(src);
    }
  }

  lemma TimingOfTyped(src: Json)
    ensures ReadTiming(src).Ok? ==> src.Obj? && ScheduleTyped(src)
    ensures src.Obj? && ScheduleTyped(src) && (exists t :: ScheduleIs(src, t)) ==> ReadTiming(src).Ok?
  {
  }

  lemma CheckExactly(iso: IsoParser, t: Timing)
    ensures CheckTiming(iso, t).Ok? <==> TimingAllowed(iso, t)
  {
  }

  lemma HeadExactly(iso: IsoParser, src: Json, id: string, h: Head)
    requires id != ""
    ensures ReadHead(iso, src, id) == Ok(h) <==>
      && h.id == id && src.Obj? && ScheduleTyped(src)
      && TextIs(src, "name", h.name, "job-" + if |id| <= 8 then id else id[..8])
      && TextIs(src, "description", h.description, "")
      && ScheduleIs(src, h.timing) && TimingAllowed(iso, h.timing)
  {
    TimingExactly(src, h.timing);
    CheckExactly(iso, h.timing);
  }

  lemma RouteExactly(src: Json, strict: bool, target: string, kind: string)
    requires src.Obj?
    ensures ReadRoute(src, strict) == Ok(Route(target, kind)) <==>
      && TextOrNone(src, "sessionTarget") && TextOrNone(src, "sessionKey") && TextOrNone(src.At("payload"), "kind")
      && TargetIs(src, target) && PayloadKindIs(src, target, kind) && RouteAllowed(target, kind, strict)
  {
  }

  lemma TextExactly(src: Json, kind: string, text: string)
    requires src.Obj?
    ensures ReadText(src, kind) == Ok(text) <==> MessageTyped(src.At("payload"), kind) && MessageIs(src, kind, text)
  {
  }

  lemma PayloadExactly(src: Json, kind: string, strict: bool, p: Payload)
    requires src.Obj?
    ensures ReadPayload(src, kind, strict) == Ok(p) <==>
      && p.kind == kind && MessageTyped(src.At("payload"), kind) && MessageIs(src, kind, p.text)
      && TextIs(src.At("payload"), "model", p.model, "")
      && TextIs(src.At("payload"), "thinking", p.thinking, "")
      && NumberIs(src.At("payload"), "timeoutSeconds", p.timeoutSeconds, 0)
      && (strict ==> p.text != "")
  {
    TextExactly(src, kind, p.text);
  }

  lemma DeliveryExactly(src: Json, target: string, strict: bool, d: Delivery)
    requires src.Obj? && (target == "main" || target == "isolated")
    ensures ReadDelivery(src, target, strict) == Ok(d) <==>
      && (src.Has("delivery") ==> src.At("delivery").Obj?)
      && DeliveryIs(src, target, d) && DeliveryAllowed(target, d.mode, strict)
  {
  }

  lemma BodyParts(src: Json, id: string, strict: bool, b: Body)
    ensures ReadBody(src, id, strict) == Ok(b) <==>
      && ReadRoute(src, strict) == Ok(Route(b.target, b.payload.kind))
      && ReadPayload(src, b.payload.kind, strict) == Ok(b.payload)
      && StringOr<Refusal>(src, "sessionKey", if b.target == "main" then "main" else "cron:" + id) == Ok(b.sessionKey)
      && ReadWakeMode(src) == Ok(b.wakeMode)
      && ReadDelivery(src, b.target, strict) == Ok(b.delivery)
  {
  }

  lemma BodyExactly(src: Json, id: string, strict: bool, b: Body)
    requires src.Obj?
    ensures ReadBody(src, id, strict) == Ok(b) <==>
      && RouteTyped(src) && MessageTyped(src.At("payload"), b.payload.kind)
      && TargetIs(src, b.target) && PayloadIs(src, b.target, b.payload)
      && TextIs(src, "sessionKey", b.sessionKey, if b.target == "main" then "main" else "cron:" + id)
      && TextIs(src, "wakeMode", b.wakeMode, "now")
      && DeliveryIs(src, b.target, b.delivery)
      && RouteAllowed(b.target, b.payload.kind, strict) && (strict ==> b.payload.text != "")
      && (b.wakeMode == "now" || b.wakeMode == "next-heartbeat")
      && DeliveryAllowed(b.target, b.delivery.mode, strict)
  {
    BodyParts(src, id, strict, b);
    RouteExactly(src, strict, b.target, b.payload.kind);
    PayloadExactly(src, b.payload.kind, strict, b.payload);
    if b.target == "main" || b.target == "isolated" {
      DeliveryExactly(src, b.target, strict, b.delivery);
    }
  }

  lemma StatusExactly(src: Json, kind: string, s: Status)
    requires src.Obj?
    ensures ReadStatus(src, kind) == Ok(s) <==>
      && TextIs(src, "agentId", s.agentId, "")
      && FlagIs(src, "enabled", s.enabled, true)
      && FlagIs(src, "deleteAfterRun", s.deleteAfterRun, kind == "at")
      && NumberIs(src, "consecutiveErrors", s.consecutiveErrors, 0)
      && NumberIs(src, "lastRunAt", s.lastRunAt, 0)
      && NumberIs(src, "lastSuccessAt", s.lastSuccessAt, 0)
      && NumberIs(src, "nextRunAt", s.nextRunAt, 0)
  {
    MemberExactly(src, "agentId", s.agentId, "");
    FlagExactly(src, "enabled", s.enabled, true);
    FlagExactly(src, "deleteAfterRun", s.deleteAfterRun, kind == "at");
    NumberExactly(src, "consecutiveErrors", s.consecutiveErrors, 0);
    NumberExactly(src, "lastRunAt", s.lastRunAt, 0);
    NumberExactly(src, "lastSuccessAt", s.lastSuccessAt, 0);
    NumberExactly(src, "nextRunAt", s.nextRunAt, 0);
  }

  lemma MemberExactly(src: Json, key: string, value: string, default: string)
    requires src.Obj?
    ensures StringOr<Refusal>(src, key, default) == Ok(value) <==> TextIs(src, key, value, default)
  {
  }

  lemma FlagExactly(src: Json, key: string, value: bool, default: bool)
    requires src.Obj?
    ensures BoolOr<Refusal>(src, key, default) == Ok(value) <==> FlagIs(src, key, value, default)
  {
  }

  lemma NumberExactly(src: Json, key: string, value: int, default: int)
    requires src.Obj?
    ensures NumberOr<Refusal>(src, key, default) == Ok(value) <==> NumberIs(src, key, value, default)
  {
  }

  lemma JobParts(iso: IsoParser, src: Json, id: string, now: nat, strict: bool, j: Job)
    requires id != ""
    ensures ParseJobSpec(iso, src, id, now, strict) == Ok(j) <==>
      && ReadHead(iso, src, id) == Ok(Head(j.id, j.name, j.description, j.timing))
      && ReadBody(src, j.id, strict) == Ok(Body(j.sessionTarget, j.payload, j.sessionKey, j.wakeMode, j.delivery))
      && j.message == j.payload.text && ReadsStatus(iso, src, now, j)
  {
    if ParseJobSpec(iso, src, id, now, strict) == Ok(j) {
      var given := ReadStatus(src, j.timing.kind).value.nextRunAt;
      assert StatusOf(j, given) == ReadStatus(src, j.timing.kind).value;
    }
  }

  // The status read, with the next run that follows from the one given.
  ghost predicate ReadsStatus(iso: IsoParser, src: Json, now: nat, j: Job) {
    exists given ::
      j.nextRunAt == NextRunAt(iso, j.timing, given, now) && ReadStatus(src, j.timing.kind) == Ok(StatusOf(j, given))
  }

  function StatusOf(j: Job, given: int): Status {
    Status(j.agentId, j.enabled, j.deleteAfterRun, j.consecutiveErrors, j.lastRunAt, j.lastSuccessAt, given)
  }

  lemma StatusAndNextRun(iso: IsoParser, src: Json, now: nat, j: Job)
    requires src.Obj? && TimingOk(iso, j.timing)
    ensures ReadsStatus(iso, src, now, j) <==> StatusIs(src, j) && NextRunIs(iso, src, j.timing, now, j.nextRunAt)
  {
    forall given: int
      ensures ReadStatus(src, j.timing.kind) == Ok(StatusOf(j, given)) <==>
        StatusIs(src, j) && NumberIs(src, "nextRunAt", given, 0)
      ensures j.nextRunAt == NextRunAt(iso, j.timing, given, now) <==>
        if given > 0 then j.nextRunAt == given else FirstRunIs(iso, j.timing, now, j.nextRunAt)
    {
      StatusExactly(src, j.timing.kind, StatusOf(j, given));
      FirstRunExactly(iso, j.timing, now, j.nextRunAt);
    }
  }

  // Main result 1. The reader answers with a job exactly when the document is well typed,
  // the job is what it describes, and nothing about the job is refused.
  lemma ReadExactly(iso: IsoParser, src: Json, id: string, now: nat, strict: bool, j: Job)
    requires id != ""
    ensures ParseJobSpec(iso, src, id, now, strict) == Ok(j) <==>
      j.id == id && WellTyped(src, j.payload.kind) && Means(iso, src, now, j) && Allowed(iso, j, strict)
  {
    JobParts(iso, src, id, now, strict, j);
    HeadExactly(iso, src, id, Head(j.id, j.name, j.description, j.timing));
    if src.Obj? {
      BodyExactly(src, j.id, strict, Body(j.sessionTarget, j.payload, j.sessionKey, j.wakeMode, j.delivery));
      CheckExactly(iso, j.timing);
      if TimingAllowed(iso, j.timing) {
        StatusAndNextRun(iso, src, now, j);
      }
    }
  }

  // Why a document is refused.
  ghost predicate TimingRefused(iso: IsoParser, t: Timing, e: Refusal) {
    || (e == InvalidIsoTime && t.kind == "at" && iso(t.atIso) <= 0)
    || (e == EveryMsNotPositive && t.kind == "every" && t.everyMs <= 0)
    || (e.BadCron? && t.kind == "cron" && CronExpr.ReadExpr(t.cronExpr) == CronExpr.Invalid(e.error))
    || (e == UnsupportedKind && t.kind != "at" && t.kind != "every" && t.kind != "cron")
  }

  predicate RouteRefused(target: string, kind: string, strict: bool, e: Refusal) {
    || (e == BadSessionTarget && target != "main" && target != "isolated")
    || (e == BadPayloadKind && kind != "systemEvent" && kind != "agentTurn")
    || (e == MainNeedsSystemEvent && strict && target == "main" && kind != "systemEvent")
    || (e == IsolatedNeedsAgentTurn && strict && target == "isolated" && kind != "agentTurn")
  }

  predicate DeliveryRefused(given: Json, mode: string, target: string, strict: bool, e: Refusal) {
    || (e == DeliveryNotObject && !given.Obj?)
    || (given.Obj? && TextIs(given, "mode", mode, if target == "isolated" then "announce" else "none") && (
          || (e == BadDeliveryMode && mode != "none" && mode != "announce")
          || (e == DeliveryOnlyForIsolated && strict && target != "isolated" && mode != "none")))
  }

  ghost predicate HeadRefused(iso: IsoParser, src: Json, id: string, e: Refusal) {
    || (e == JobIdRequired && id == "" && TextIs(src, "id", "", ""))
    || (exists t :: ScheduleIs(src, t) && TimingRefused(iso, t, e))
  }

  ghost predicate BodyRefused(src: Json, target: string, kind: string, strict: bool, e: Refusal) {
    && TargetIs(src, target) && PayloadKindIs(src, target, kind)
    && (|| RouteRefused(target, kind, strict, e)
        || (e == TextRequired && strict && MessageIs(src, kind, ""))
        || (e == BadWakeMode && exists mode ::
              TextIs(src, "wakeMode", mode, "now") && mode != "now" && mode != "next-heartbeat")
        || (src.Has("delivery") && exists mode :: DeliveryRefused(src.At("delivery"), mode, target, strict, e)))
  }

  // Main result 2. Every refusal names a fault that is there.
  lemma RefusalMeaning(iso: IsoParser, src: Json, id: string, now: nat, strict: bool, e: Refusal)
    requires ParseJobSpec(iso, src, id, now, strict) == Refused(e)
    ensures HeadRefused(iso, src, id, e) || exists target, kind :: BodyRefused(src, target, kind, strict, e)
  {
    RefusedPart(iso, src, id, now, strict, e);
    var head := ReadHead(iso, src, id);
    if head.Ok? {
      var target, kind := BodyRefusal(src, head.value.id, strict, e);
    } else {
      HeadRefusal(iso, src, id, e);
    }
  }

  lemma RefusedPart(iso: IsoParser, src: Json, id: string, now: nat, strict: bool, e: Refusal)
    requires ParseJobSpec(iso, src, id, now, strict) == Refused(e)
    ensures var head := ReadHead(iso, src, id);
      if head.Ok? then ReadBody(src, head.value.id, strict) == Refused(e) else head == Refused(e)
  {
    var head := ReadHead(iso, src, id);
    if head.Ok? {
      StatusNeverRefuses(src, head.value.timing.kind, e);
    }
  }

  lemma StatusNeverRefuses(src: Json, kind: string, e: Refusal)
    ensures ReadStatus(src, kind) != Refused(e)
  {
  }

  lemma HeadRefusal(iso: IsoParser, src: Json, id: string, e: Refusal)
    requires ReadHead(iso, src, id) == Refused(e)
    ensures HeadRefused(iso, src, id, e)
  {
    if ReadTiming(src).Ok? {
      ReadScheduleMeaning(src);
    }
  }

  lemma RouteRefusal(src: Json, strict: bool, e: Refusal) returns (target: string, kind: string)
    requires ReadRoute(src, strict) == Refused(e)
    ensures TargetIs(src, target) && PayloadKindIs(src, target, kind) && RouteRefused(target, kind, strict, e)
  {
    var given := src.At("sessionTarget");
    var payloadKind := src.At("payload").At("kind");
    target :=
      if given.Str? && given.text != "" then given.text
      else if payloadKind == Str("agentTurn") then "isolated"
      else if src.Has("sessionKey") && src.At("sessionKey") != Str("") && src.At("sessionKey") != Str("main") then
        "isolated"
      else "main";
    kind :=
      if payloadKind.Str? && payloadKind.text != "" then payloadKind.text
      else if target == "main" then "systemEvent" else "agentTurn";
  }

  lemma BodyRefusal(src: Json, id: string, strict: bool, e: Refusal) returns (target: string, kind: string)
    requires ReadBody(src, id, strict) == Refused(e)
    ensures BodyRefused(src, target, kind, strict, e)
  {
    var route := ReadRoute(src, strict);
    if !route.Ok? {
      target, kind := RouteRefusal(src, strict, e);
    } else {
      target, kind := route.value.target, route.value.payloadKind;
      RouteExactly(src, strict, target, kind);
      if !ReadPayload(src, kind, strict).Ok? {
        TextExactly(src, kind, "");
      } else if ReadWakeMode(src).Ok? {
        var mode := DeliveryRefusal(src, target, strict, e);
      } else {
        var mode := WakeModeRefusal(src, e);
      }
    }
  }

  lemma WakeModeRefusal(src: Json, e: Refusal) returns (mode: string)
    requires ReadWakeMode(src) == Refused(e)
    ensures e == BadWakeMode && TextIs(src, "wakeMode", mode, "now") && mode != "now" && mode != "next-heartbeat"
  {
    mode := src.At("wakeMode").text;
  }

  lemma DeliveryRefusal(src: Json, target: string, strict: bool, e: Refusal) returns (mode: string)
    requires ReadDelivery(src, target, strict) == Refused(e)
    ensures src.Has("delivery") && DeliveryRefused(src.At("delivery"), mode, target, strict, e)
  {
    var usual := if target == "isolated" then "announce" else "none";
    mode := if src.At("delivery").Has("mode") then src.At("delivery").At("mode").text else usual;
  }

  // ------------------------------------------------------------------
  // What a patch does to a job

  // A member named with null falls back to its default, one named otherwise is taken, and
  // one not named keeps the job's value.
  predicate TakesText(patch: Json, key: string, value: string, was: string, default: string) {
    if !patch.Has(key) then value == was
    else if patch.At(key).Null? then value == default
    else patch.At(key) == Str(value)
  }

  predicate TakesFlag(patch: Json, key: string, value: bool, was: bool, default: bool) {
    if !patch.Has(key) then value == was
    else if patch.At(key).Null? then value == default
    else patch.At(key) == Bool(value)
  }

  predicate TakesNumber(patch: Json, key: string, value: int, was: int, default: int) {
    if !patch.Has(key) then value == was
    else if patch.At(key).Null? then value == default
    else NumberIs(patch, key, value, default)
  }

  lemma MergedText(target: Json, patch: Json, key: string, value: string, was: string, default: string)
    requires patch.Obj? && target.Has(key) && target.At(key) == Str(was)
    requires TextIs(MergePatch.Merge(target, patch), key, value, default)
    ensures TakesText(patch, key, value, was, default)
  {
    MergePatch.MergeMembers(target, patch, key);
  }

  lemma MergedFlag(target: Json, patch: Json, key: string, value: bool, was: bool, default: bool)
    requires patch.Obj? && target.Has(key) && target.At(key) == Bool(was)
    requires FlagIs(MergePatch.Merge(target, patch), key, value, default)
    ensures TakesFlag(patch, key, value, was, default)
  {
    MergePatch.MergeMembers(target, patch, key);
  }

  lemma MergedNumber(target: Json, patch: Json, key: string, value: int, was: int, default: int)
    requires patch.Obj? && target.Has(key) && target.At(key) == Num(was)
    requires NumberIs(MergePatch.Merge(target, patch), key, value, default)
    ensures TakesNumber(patch, key, value, was, default)
  {
    MergePatch.MergeMembers(target, patch, key);
  }

  // A written job holds every field under its name.
  lemma WrittenTexts(j: Job)
    ensures var src := JobToJson(j);
      && src.Has("name") && src.At("name") == Str(j.name)
      && src.Has("description") && src.At("description") == Str(j.description)
      && src.Has("sessionKey") && src.At("sessionKey") == Str(j.sessionKey)
      && src.Has("wakeMode") && src.At("wakeMode") == Str(j.wakeMode)
  {
  }

  lemma WrittenRoute(j: Job)
    ensures var src := JobToJson(j);
      && src.Has("agentId") && src.At("agentId") == Str(j.agentId)
      && src.Has("sessionTarget") && src.At("sessionTarget") == Str(j.sessionTarget)
  {
  }

  lemma WrittenNumbers(j: Job)
    ensures var src := JobToJson(j);
      && src.Has("enabled") && src.At("enabled") == Bool(j.enabled)
      && src.Has("deleteAfterRun") && src.At("deleteAfterRun") == Bool(j.deleteAfterRun)
      && src.Has("consecutiveErrors") && src.At("consecutiveErrors") == Num(j.consecutiveErrors)
      && src.Has("lastRunAt") && src.At("lastRunAt") == Num(j.lastRunAt)
      && src.Has("lastSuccessAt") && src.At("lastSuccessAt") == Num(j.lastSuccessAt)
      && src.Has("nextRunAt") && src.At("nextRunAt") == Num(j.nextRunAt)
  {
  }

  lemma WrittenParts(j: Job)
    ensures var src := JobToJson(j);
      && src.Has("schedule") && src.At("schedule") == ScheduleJson(j.timing)
      && src.Has("payload") && src.At("payload") == PayloadJson(j.payload)
      && src.Has("delivery") && src.At("delivery") == DeliveryJson(j.delivery)
      && src.Has("message") && src.At("message") == Str(j.message)
  {
  }

  // The fields that stand at the top of the document.
  predicate FieldsTaken(patch: Json, was: Job, j: Job) {
    && j.id == was.id
    && TakesText(patch, "name", j.name, was.name, "job-" + if |j.id| <= 8 then j.id else j.id[..8])
    && TakesText(patch, "description", j.description, was.description, "")
    && TakesText(patch, "sessionKey", j.sessionKey, was.sessionKey,
                 if j.sessionTarget == "main" then "main" else "cron:" + j.id)
    && TakesText(patch, "wakeMode", j.wakeMode, was.wakeMode, "now")
    && TakesText(patch, "agentId", j.agentId, was.agentId, "")
    && TakesFlag(patch, "enabled", j.enabled, was.enabled, true)
    && TakesFlag(patch, "deleteAfterRun", j.deleteAfterRun, was.deleteAfterRun, j.timing.kind == "at")
    && TakesNumber(patch, "consecutiveErrors", j.consecutiveErrors, was.consecutiveErrors, 0)
    && TakesNumber(patch, "lastRunAt", j.lastRunAt, was.lastRunAt, 0)
    && TakesNumber(patch, "lastSuccessAt", j.lastSuccessAt, was.lastSuccessAt, 0)
  }

  lemma FieldsOfMerged(iso: IsoParser, was: Job, patch: Json, j: Job)
    requires patch.Obj? && j.id == was.id
    requires var src := MergePatch.Merge(JobToJson(was), patch);
      HeadIs(iso, src, j) && BodyIs(src, j) && StatusIs(src, j)
    ensures FieldsTaken(patch, was, j)
  {
    var target := JobToJson(was);
    WrittenTexts(was);
    WrittenRoute(was);
    WrittenNumbers(was);
    MergedText(target, patch, "name", j.name, was.name, "job-" + if |j.id| <= 8 then j.id else j.id[..8]);
    MergedText(target, patch, "description", j.description, was.description, "");
    MergedText(target, patch, "sessionKey", j.sessionKey, was.sessionKey,
               if j.sessionTarget == "main" then "main" else "cron:" + j.id);
    MergedText(target, patch, "wakeMode", j.wakeMode, was.wakeMode, "now");
    MergedText(target, patch, "agentId", j.agentId, was.agentId, "");
    MergedFlag(target, patch, "enabled", j.enabled, was.enabled, true);
    MergedFlag(target, patch, "deleteAfterRun", j.deleteAfterRun, was.deleteAfterRun, j.timing.kind == "at");
    MergedNumber(target, patch, "consecutiveErrors", j.consecutiveErrors, was.consecutiveErrors, 0);
    MergedNumber(target, patch, "lastRunAt", j.lastRunAt, was.lastRunAt, 0);
    MergedNumber(target, patch, "lastSuccessAt", j.lastSuccessAt, was.lastSuccessAt, 0);
  }

  // A positive next run that is given or was there stands, also when the schedule changes;
  // otherwise the job is scheduled anew.
  ghost predicate NextRunTaken(iso: IsoParser, patch: Json, was: Job, now: nat, j: Job) {
    exists given ::
      TakesNumber(patch, "nextRunAt", given, was.nextRunAt, 0) &&
      if given > 0 then j.nextRunAt == given else FirstRunIs(iso, j.timing, now, j.nextRunAt)
  }

  lemma NextRunOfMerged(iso: IsoParser, was: Job, patch: Json, now: nat, j: Job)
    requires patch.Obj?
    requires NextRunIs(iso, MergePatch.Merge(JobToJson(was), patch), j.timing, now, j.nextRunAt)
    ensures NextRunTaken(iso, patch, was, now, j)
  {
    var src := MergePatch.Merge(JobToJson(was), patch);
    var given :| NumberIs(src, "nextRunAt", given, 0)
      && if given > 0 then j.nextRunAt == given else FirstRunIs(iso, j.timing, now, j.nextRunAt);
    WrittenNumbers(was);
    MergedNumber(JobToJson(was), patch, "nextRunAt", given, was.nextRunAt, 0);
  }

  // A part that is an object, in a patch that may hold an object for it.
  lemma MergedPart(target: Json, patch: Json, key: string)
    requires patch.Obj? && target.Has(key) && target.At(key).Obj?
    ensures !patch.Has(key) ==> MergePatch.Merge(target, patch).At(key) == target.At(key)
    ensures patch.At(key).Obj? ==>
      MergePatch.Merge(target, patch).At(key) == MergePatch.Merge(target.At(key), patch.At(key))
    ensures patch.Has(key) && !patch.At(key).Obj? ==> !MergePatch.Merge(target, patch).At(key).Obj?
  {
    MergePatch.MergeMembers(target, patch, key);
  }

  // Inside a part: one named is taken, one not named stays.
  predicate GivesText(part: Json, key: string, value: string, was: string) {
    && (!part.Has(key) ==> value == was)
    && (part.Has(key) && !part.At(key).Null? ==> part.At(key) == Str(value))
  }

  predicate GivesNumber(part: Json, key: string, value: int, was: int) {
    && (!part.Has(key) ==> value == was)
    && (part.Has(key) && !part.At(key).Null? ==> NumberIs(part, key, value, was))
  }

  predicate GivesFlag(part: Json, key: string, value: bool, was: bool) {
    && (!part.Has(key) ==> value == was)
    && (part.Has(key) && !part.At(key).Null? ==> part.At(key) == Bool(value))
  }

  // The schedule changes through the schedule object alone: the flat members of a patch
  // have no effect while the job's own schedule object is there.
  predicate ScheduleTaken(patch: Json, was: Timing, t: Timing) {
    && (!patch.Has("schedule") ==> t == was)
    && (patch.At("schedule").Obj? ==> SchedulePart(patch.At("schedule"), was, t))
  }

  predicate SchedulePart(part: Json, was: Timing, t: Timing) {
    && GivesText(part, "kind", t.kind, was.kind) && GivesNumber(part, "everyMs", t.everyMs, was.everyMs)
    && GivesText(part, "at", t.atIso, was.atIso) && GivesText(part, "expr", t.cronExpr, was.cronExpr)
    && GivesText(part, "tz", t.tz, was.tz)
  }

  lemma WrittenSchedule(t: Timing)
    ensures var src := ScheduleJson(t);
      && src.Has("kind") && src.At("kind") == Str(t.kind) && src.Has("everyMs") && src.At("everyMs") == Num(t.everyMs)
      && src.Has("at") && src.At("at") == Str(t.atIso) && src.Has("expr") && src.At("expr") == Str(t.cronExpr)
      && src.Has("tz") && src.At("tz") == Str(t.tz)
  {
  }

  lemma ScheduleOfMerged(was: Job, patch: Json, t: Timing)
    requires patch.Obj? && ScheduleIs(MergePatch.Merge(JobToJson(was), patch), t)
    ensures ScheduleTaken(patch, was.timing, t)
  {
    var src := MergePatch.Merge(JobToJson(was), patch);
    WrittenParts(was);
    MergedPart(JobToJson(was), patch, "schedule");
    if !patch.Has("schedule") {
      ScheduleStays(src, was.timing, t);
    } else if patch.At("schedule").Obj? {
      SchedulePartTaken(src, patch.At("schedule"), was.timing, t);
    }
  }

  lemma ScheduleStays(src: Json, was: Timing, t: Timing)
    requires src.At("schedule") == ScheduleJson(was) && ScheduleIs(src, t)
    ensures t == was
  {
    WrittenSchedule(was);
  }

  lemma SchedulePartTaken(src: Json, part: Json, was: Timing, t: Timing)
    requires part.Obj? && src.At("schedule") == MergePatch.Merge(ScheduleJson(was), part) && ScheduleIs(src, t)
    ensures SchedulePart(part, was, t)
  {
    var written := ScheduleJson(was);
    WrittenSchedule(was);
    KeptOrGiven(written, part, "kind");
    KeptOrGiven(written, part, "everyMs");
    KeptOrGiven(written, part, "at");
    KeptOrGiven(written, part, "expr");
    KeptOrGiven(written, part, "tz");
  }

  lemma KeptOrGiven(written: Json, part: Json, key: string)
    requires part.Obj? && written.Has(key) && !written.At(key).Obj?
    ensures var merged := MergePatch.Merge(written, part);
      && (!part.Has(key) ==> merged.Has(key) && merged.At(key) == written.At(key))
      && (part.Has(key) && !part.At(key).Null? && !part.At(key).Obj? ==>
            merged.Has(key) && merged.At(key) == part.At(key))
      && (part.At(key).Obj? ==> merged.Has(key) && merged.At(key).Obj?)
  {
    MergePatch.MergeMembers(written, part, key);
  }

  // A message changes through the payload member that the job's kind reads first.
  predicate PayloadTaken(patch: Json, was: Payload, p: Payload) {
    && (!patch.Has("payload") ==> p == was)
    && (patch.At("payload").Obj? ==> PartTaken(patch.At("payload"), was, p))
  }

  predicate PartTaken(part: Json, was: Payload, p: Payload) {
    && GivesText(part, "model", p.model, was.model) && GivesText(part, "thinking", p.thinking, was.thinking)
    && GivesNumber(part, "timeoutSeconds", p.timeoutSeconds, was.timeoutSeconds)
    && (!part.Has("kind") ==> p.kind == was.kind)
    && (part.At("kind").Str? && part.At("kind").text != "" ==> p.kind == part.At("kind").text)
    && var first := if p.kind == "systemEvent" then "text" else "message";
      && (!part.Has(first) ==> p.text == was.text)
      && (part.At(first).Str? && part.At(first).text != "" ==> p.text == part.At(first).text)
  }

  lemma WrittenPayload(p: Payload)
    ensures var src := PayloadJson(p);
      && src.Has("kind") && src.At("kind") == Str(p.kind)
      && src.Has("model") && src.At("model") == Str(p.model)
      && src.Has("thinking") && src.At("thinking") == Str(p.thinking)
      && src.Has("timeoutSeconds") && src.At("timeoutSeconds") == Num(p.timeoutSeconds)
      && src.Has("text") && src.At("text") == Str(p.text) && src.Has("message") && src.At("message") == Str(p.text)
  {
  }

  lemma PayloadStays(src: Json, target: string, was: Payload, p: Payload)
    requires src.At("payload") == PayloadJson(was) && PayloadIs(src, target, p)
    requires was.kind != "" && was.text != ""
    ensures p == was
  {
    WrittenPayload(was);
  }

  lemma PartText(target: Json, part: Json, key: string, value: string, was: string, default: string)
    requires part.Obj? && target.Has(key) && target.At(key) == Str(was)
    requires TextIs(MergePatch.Merge(target, part), key, value, default)
    ensures GivesText(part, key, value, was)
  {
    MergedText(target, part, key, value, was, default);
  }

  lemma PayloadKindOfMerged(src: Json, part: Json, target: string, was: Payload, kind: string)
    requires part.Obj? && src.At("payload") == MergePatch.Merge(PayloadJson(was), part)
    requires PayloadKindIs(src, target, kind) && was.kind != ""
    ensures !part.Has("kind") ==> kind == was.kind
    ensures part.At("kind").Str? && part.At("kind").text != "" ==> kind == part.At("kind").text
  {
    WrittenPayload(was);
    MergePatch.MergeMembers(PayloadJson(was), part, "kind");
  }

  lemma MessageOfMerged(src: Json, part: Json, was: Payload, kind: string, message: string, first: string)
    requires part.Obj? && src.At("payload") == MergePatch.Merge(PayloadJson(was), part)
    requires MessageIs(src, kind, message) && was.text != ""
    requires first == if kind == "systemEvent" then "text" else "message"
    ensures !part.Has(first) ==> message == was.text
    ensures part.At(first).Str? && part.At(first).text != "" ==> message == part.At(first).text
  {
    WrittenPayload(was);
    MergePatch.MergeMembers(PayloadJson(was), part, first);
  }

  lemma PayloadOfMerged(was: Job, patch: Json, target: string, p: Payload)
    requires patch.Obj? && PayloadIs(MergePatch.Merge(JobToJson(was), patch), target, p)
    requires was.payload.kind != "" && was.payload.text != ""
    ensures PayloadTaken(patch, was.payload, p)
  {
    var src := MergePatch.Merge(JobToJson(was), patch);
    WrittenParts(was);
    MergedPart(JobToJson(was), patch, "payload");
    if !patch.Has("payload") {
      PayloadStays(src, target, was.payload, p);
    } else if patch.At("payload").Obj? {
      PayloadPartTaken(src, patch.At("payload"), target, was.payload, p);
    }
  }

  lemma PayloadPartTaken(src: Json, part: Json, target: string, was: Payload, p: Payload)
    requires part.Obj? && src.At("payload") == MergePatch.Merge(PayloadJson(was), part)
    requires PayloadIs(src, target, p) && was.kind != "" && was.text != ""
    ensures PartTaken(part, was, p)
  {
    var written := PayloadJson(was);
    WrittenPayload(was);
    PartText(written, part, "model", p.model, was.model, "");
    PartText(written, part, "thinking", p.thinking, was.thinking, "");
    MergedNumber(written, part, "timeoutSeconds", p.timeoutSeconds, was.timeoutSeconds, 0);
    PayloadKindOfMerged(src, part, target, was, p.kind);
    MessageOfMerged(src, part, was, p.kind, p.text, if p.kind == "systemEvent" then "text" else "message");
  }

  predicate DeliveryTaken(patch: Json, was: Delivery, d: Delivery) {
    var part := patch.At("delivery");
    && (!patch.Has("delivery") ==> d == was)
    && (part.Obj? ==>
          && GivesText(part, "mode", d.mode, was.mode) && GivesText(part, "channel", d.channel, was.channel)
          && GivesText(part, "to", d.to, was.to) && GivesFlag(part, "bestEffort", d.bestEffort, was.bestEffort))
  }

  lemma WrittenDelivery(d: Delivery)
    ensures var src := DeliveryJson(d);
      && src.Has("mode") && src.At("mode") == Str(d.mode) && src.Has("channel") && src.At("channel") == Str(d.channel)
      && src.Has("to") && src.At("to") == Str(d.to)
      && src.Has("bestEffort") && src.At("bestEffort") == Bool(d.bestEffort)
  {
  }

  lemma DeliveryOfMerged(was: Job, patch: Json, target: string, d: Delivery)
    requires patch.Obj? && DeliveryIs(MergePatch.Merge(JobToJson(was), patch), target, d)
    ensures DeliveryTaken(patch, was.delivery, d)
  {
    WrittenParts(was);
    WrittenDelivery(was.delivery);
    MergedPart(JobToJson(was), patch, "delivery");
    var part := patch.At("delivery");
    if part.Obj? {
      var written := DeliveryJson(was.delivery);
      MergePatch.MergeMembers(written, part, "mode");
      MergePatch.MergeMembers(written, part, "channel");
      MergePatch.MergeMembers(written, part, "to");
      MergePatch.MergeMembers(written, part, "bestEffort");
    }
  }

  predicate TargetTaken(patch: Json, was: string, target: string) {
    && (!patch.Has("sessionTarget") ==> target == was)
    && (patch.At("sessionTarget").Str? && patch.At("sessionTarget").text != "" ==>
          target == patch.At("sessionTarget").text)
  }

  lemma TargetOfMerged(was: Job, patch: Json, target: string)
    requires patch.Obj? && TargetIs(MergePatch.Merge(JobToJson(was), patch), target) && was.sessionTarget != ""
    ensures TargetTaken(patch, was.sessionTarget, target)
  {
    WrittenRoute(was);
    MergePatch.MergeMembers(JobToJson(was), patch, "sessionTarget");
  }

  // The job after an update: what the patch names is what it names, and the rest stays.
  ghost predicate Updated(iso: IsoParser, patch: Json, was: Job, now: nat, j: Job) {
    && FieldsTaken(patch, was, j)
    && ScheduleTaken(patch, was.timing, j.timing)
    && TargetTaken(patch, was.sessionTarget, j.sessionTarget)
    && PayloadTaken(patch, was.payload, j.payload) && j.message == j.payload.text
    && DeliveryTaken(patch, was.delivery, j.delivery)
    && NextRunTaken(iso, patch, was, now, j)
  }

  // Main result 3. A job read from the merged document is the updated job.
  lemma MeansUpdated(iso: IsoParser, was: Job, patch: Json, now: nat, j: Job)
    requires patch.Obj? && JobOk(iso, was) && j.id == was.id
    requires Means(iso, MergePatch.Merge(JobToJson(was), patch), now, j)
    ensures Updated(iso, patch, was, now, j)
  {
    FieldsOfMerged(iso, was, patch, j);
    ScheduleOfMerged(was, patch, j.timing);
    TargetOfMerged(was, patch, j.sessionTarget);
    PayloadOfMerged(was, patch, j.sessionTarget, j.payload);
    DeliveryOfMerged(was, patch, j.sessionTarget, j.delivery);
    NextRunOfMerged(iso, was, patch, now, j);
  }
}
