// From an accepted request to the prompt of its run.
module TaskPrompts {
  import opened Prelude
  import opened Json
  import opened RuntimePolicy
  import opened TaskQueue
  import opened TaskLane
  import Carryover
  import TaskEdits

  // What a request asks for, read from its body.
  function AskedLimit(body: Json): (r: nat) {
    var context := body.At("context");
    if context.At("historyLimit").Num? then ClampLimit(context.At("historyLimit").number) else 30
  }

  function AskedMode(body: Json): string {
    var context := body.At("context");
    if context.At("carryover").Str? then context.At("carryover").text else "inherit"
  }

  // The engine reads from an accepted context what the request asked for.
  lemma ContextAsAsked(body: Json)
    requires NormalizeContext(body.At("context")).Ok?
    ensures var context := NormalizeContext(body.At("context")).value;
      Carryover.Limit(context) == AskedLimit(body) && Carryover.Mode(context) == AskedMode(body)
  {
    ContextIsStable(body.At("context"));
  }

  lemma RequestedContext(c: Config, body: Json, id: string, now: int)
    requires ReadRequest(c, body).Ok?
    ensures NormalizeContext(body.At("context")).Ok?
    ensures NewTask(ReadRequest(c, body).value, id, now).context == NormalizeContext(body.At("context")).value
  {
  }

  // The record the executor is given carries the context of the request, whatever happened
  // between the two, restarts included.
  lemma ExecutedContext(c: Config, steps: seq<Step>, body: Json, id: string, now: int, more: seq<Step>)
    requires id !in Run(c, steps).lane.tasks && id != ""
    requires EnqueueReply(c, Run(c, steps).lane, body, id, now).Accepted?
    requires var w := Run(c, steps + [Enqueue(body, id, now)] + more).worker; w.Executing? && w.copy.id == id
    ensures NormalizeContext(body.At("context")).Ok?
    ensures Run(c, steps + [Enqueue(body, id, now)] + more).worker.copy.context
      == NormalizeContext(body.At("context")).value
  {
    var enqueued := steps + [Enqueue(body, id, now)];
    EveryRunKeepsInv(c, steps);
    EnqueueMeaning(c, Run(c, steps), body, id, now);
    RunSnoc(c, steps, Enqueue(body, id, now));
    RequestedContext(c, body, id, now);
    TasksOnlyMoveForward(c, enqueued, more, id);
    CopyIsTheTask(c, enqueued + more, id);
  }

  lemma CopyIsTheTask(c: Config, steps: seq<Step>, id: string)
    requires Run(c, steps).worker.Executing? && Run(c, steps).worker.copy.id == id
    ensures id in Run(c, steps).lane.tasks && SameRequest(Run(c, steps).worker.copy, Run(c, steps).lane.tasks[id])
  {
    EveryRunKeepsInv(c, steps);
    assert FacetOk(id, FacetOf(Run(c, steps), id));
  }

  // Main result 1. Whenever the executor runs a task, over every run with any restarts, the
  // prompt made under the task's policy is the one the request asked for: that many of the
  // newest lines, pruned in that mode.
  lemma PromptAsAsked(c: Config, steps: seq<Step>, body: Json, id: string, now: int, more: seq<Step>,
                      systemPrompt: string, transcript: seq<Carryover.Message>)
    requires id !in Run(c, steps).lane.tasks && id != ""
    requires EnqueueReply(c, Run(c, steps).lane, body, id, now).Accepted?
    requires var w := Run(c, steps + [Enqueue(body, id, now)] + more).worker; w.Executing? && w.copy.id == id
    ensures
      var copy := Run(c, steps + [Enqueue(body, id, now)] + more).worker.copy;
      var limit, mode := AskedLimit(body), AskedMode(body);
      Carryover.Prompt(systemPrompt, transcript, copy.context)
        == [Carryover.Message("system", systemPrompt)] + Carryover.Pruned(LastN(transcript, limit), mode, limit)
    ensures
      var copy := Run(c, steps + [Enqueue(body, id, now)] + more).worker.copy;
      var limit, mode := AskedLimit(body), AskedMode(body);
      Carryover.Follows(LastN(transcript, limit), mode, limit,
                        Carryover.Prompt(systemPrompt, transcript, copy.context)[1..])
  {
    ExecutedContext(c, steps, body, id, now, more);
    ContextAsAsked(body);
    var limit, mode := AskedLimit(body), AskedMode(body);
    var copy := Run(c, steps + [Enqueue(body, id, now)] + more).worker.copy;
    Carryover.PromptFollows(systemPrompt, transcript, copy.context);
  }

  // Main result 2. And all the rest of what the executor is handed is what the body asked
  // for as well, over every run with any restarts.
  lemma RunAsAsked(c: Config, steps: seq<Step>, body: Json, id: string, now: int, more: seq<Step>)
    requires id !in Run(c, steps).lane.tasks && id != ""
    requires EnqueueReply(c, Run(c, steps).lane, body, id, now).Accepted?
    requires var w := Run(c, steps + [Enqueue(body, id, now)] + more).worker; w.Executing? && w.copy.id == id
    ensures
      var t := Run(c, steps + [Enqueue(body, id, now)] + more).worker.copy;
      && Asks(c, body, Request(t.channel, t.peerId, t.text, t.systemEvent, t.timeoutMs, t.context, t.tools))
      && t.text != "" && t.createdAtMs == now
  {
    var enqueued := steps + [Enqueue(body, id, now)];
    TaskEdits.EnqueueMeaning(c, Run(c, steps).lane, body, id, now);
    EveryRunKeepsInv(c, steps);
    RunSnoc(c, steps, Enqueue(body, id, now));
    var stored := EnqueueReply(c, Run(c, steps).lane, body, id, now).task;
    assert Run(c, enqueued).lane.tasks[id] == stored;
    TasksOnlyMoveForward(c, enqueued, more, id);
    CopyIsTheTask(c, enqueued + more, id);
    SameAsks(c, body, stored, Run(c, enqueued + more).worker.copy);
  }

  lemma SameAsks(c: Config, body: Json, stored: Task, t: Task)
    requires SameRequest(stored, t)
    requires var r := Request(stored.channel, stored.peerId, stored.text, stored.systemEvent, stored.timeoutMs,
                              stored.context, stored.tools); Asks(c, body, r)
    ensures Asks(c, body, Request(t.channel, t.peerId, t.text, t.systemEvent, t.timeoutMs, t.context, t.tools))
  {
  }
}
