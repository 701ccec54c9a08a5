// What every section of the task queue does to its records and containers: stated on the
// fields, for every state of the queue.
module TaskEdits {
  import opened Prelude
  import opened Json
  import opened RuntimePolicy
  import opened TaskQueue
  import TaskOrder

  // ------------------------------------------------------------------
  // One more event

  // The record after one more event: numbered on from 1 at least, and the newest 256 kept.
  predicate Logged(t: Task, t': Task, kind: EventType, now: int) {
    var n := |t'.events| - 1;
    && n >= 0 && t'.events[n] == Event(if t.nextEventSeq < 1 then 1 else t.nextEventSeq, kind, t'.status, now)
    && t'.nextEventSeq == t'.events[n].seqNo + 1
    && n <= |t.events| && n == (if |t.events| < 256 then |t.events| else 255)
    && t'.events[..n] == t.events[|t.events| - n..]
  }

  lemma AppendMeaning(t: Task, kind: EventType, now: int)
    ensures var t' := AppendEvent(t, kind, t.status, now);
      Logged(t, t', kind, now) && t' == t.(events := t'.events, nextEventSeq := t'.nextEventSeq)
  {
    var all := t.events + [NextEvent(t, kind, t.status, now)];
    var t' := AppendEvent(t, kind, t.status, now);
    assert t'.events == all[|all| - |t'.events|..];
  }

  // ------------------------------------------------------------------
  // Enqueue

  // The record of a request: as the body asks, queued, with its first event.
  ghost predicate Requested(c: Config, body: Json, id: string, now: int, t: Task) {
    && Asks(c, body, Request(t.channel, t.peerId, t.text, t.systemEvent, t.timeoutMs, t.context, t.tools))
    && t.id == id && t.status == Queued && t.createdAtMs == now
    && t.events == [Event(1, TaskEnqueued, Queued, now)] && t.nextEventSeq == 2
    && t.result == "" && t.error == "" && t.startedAtMs == 0 && t.finishedAtMs == 0
  }

  // Main result 1. A body is accepted exactly when there is room, its members have the
  // right types, its policies are usable and it has a text; the record is what it asks
  // for, stored last in the queue. Every other answer says what was wrong first.
  lemma EnqueueMeaning(c: Config, lane: Lane, body: Json, id: string, now: int)
    ensures
      var reply, after := EnqueueReply(c, lane, body, id, now), EnqueueLane(c, lane, body, id, now);
      var full := |lane.queue| >= c.maxQueue;
      var named := body.At("text").Str? && body.At("text").text != "";
      && (reply.Accepted? <==> !full && WellTyped(body) && PoliciesAccepted(body) && named)
      && (reply.Accepted? ==> Requested(c, body, id, now, reply.task))
      && (reply.Accepted? ==> after == Lane(lane.queue + [id], lane.tasks[id := reply.task], lane.flags))
      && (reply.Thrown? <==> !full && !WellTyped(body))
      && (reply.Refused? ==>
            reply.error ==
              if full then "task queue is full"
              else if PoliciesAccepted(body) then "text is required" else PolicyError(body))
      && (!reply.Accepted? ==> after == lane)
  {
    RequestMeaning(c, body);
    var request := ReadRequest(c, body);
    if request.Ok? {
      NewTaskMeaning(c, body, request.value, id, now);
    }
  }

  lemma NewTaskMeaning(c: Config, body: Json, r: Request, id: string, now: int)
    requires Asks(c, body, r)
    ensures Requested(c, body, id, now, NewTask(r, id, now)) && NewTask(r, id, now).text == r.text
  {
    var e := Event(1, TaskEnqueued, Queued, now);
    assert [] + [e] == [e];
  }

  // ------------------------------------------------------------------
  // Cancel

  ghost predicate CancelNoted(t: Task, t': Task, now: int) {
    match t.status
    case Queued =>
      && t' == t.(status := Cancelled, finishedAtMs := now, error := "Cancelled by user",
                  events := t'.events, nextEventSeq := t'.nextEventSeq)
      && Logged(t, t', TaskCancelled, now)
    case Running =>
      && t' == t.(status := Cancelling, events := t'.events, nextEventSeq := t'.nextEventSeq)
      && Logged(t, t', TaskCancelling, now)
    case Cancelling =>
      && t' == t.(events := t'.events, nextEventSeq := t'.nextEventSeq)
      && Logged(t, t', TaskCancelIgnored, now)
    case _ => false
  }

  // The entries of `queue` other than `id`, at increasing positions.
  ghost predicate LeftOut(queue: seq<string>, id: string, left: seq<string>, pos: seq<nat>) {
    && Increasing(pos, |queue|) && |pos| == |left|
    && (forall i :: 0 <= i < |pos| ==> left[i] == queue[pos[i]])
    && (forall n :: 0 <= n < |queue| ==> (n in pos <==> queue[n] != id))
  }

  // Main result 2. A cancel is accepted exactly for a task that is queued, running or
  // being cancelled. A queued one is over at once and leaves the queue; a running one is
  // flagged; one being cancelled only gets the event.
  lemma CancelMeaning(lane: Lane, id: string, now: int)
    ensures
      var reply, after := CancelReply(lane, id, now), CancelLane(lane, id, now);
      && !reply.Thrown?
      && (reply.Accepted? <==> id in lane.tasks && lane.tasks[id].status in {Queued, Running, Cancelling})
      && (reply == Reply.Refused("task not found") <==> id !in lane.tasks)
      && (reply.Refused? ==> reply.error == if id in lane.tasks then "task_cancel_not_allowed" else "task not found")
      && (reply.Accepted? ==>
            && CancelNoted(lane.tasks[id], reply.task, now) && after.tasks == lane.tasks[id := reply.task]
            && after.flags == (if lane.tasks[id].status == Running then lane.flags[id := true] else lane.flags)
            && if lane.tasks[id].status == Queued then exists pos :: LeftOut(lane.queue, id, after.queue, pos)
              else after.queue == lane.queue)
      && (!reply.Accepted? ==> after == lane)
  {
    if id in lane.tasks && !lane.tasks[id].status.Terminal() {
      CancelledMeaning(lane.tasks[id], now);
      var pos := WithoutMeaning(lane.queue, id);
    }
  }

  lemma CancelledMeaning(t: Task, now: int)
    requires !t.status.Terminal()
    ensures CancelNoted(t, CancelledTask(t, now), now)
  {
    match t.status
    case Queued =>
      AppendMeaning(t.(status := Cancelled, finishedAtMs := now, error := "Cancelled by user"), TaskCancelled, now);
    case Running => AppendMeaning(t.(status := Cancelling), TaskCancelling, now);
    case Cancelling => AppendMeaning(t, TaskCancelIgnored, now);
  }

  lemma {:induction false} WithoutMeaning(queue: seq<string>, id: string) returns (pos: seq<nat>)
    ensures LeftOut(queue, id, Without(queue, id), pos)
  {
    if queue == [] {
      pos := [];
    } else {
      var init, last := queue[..|queue| - 1], queue[|queue| - 1];
      var before := WithoutMeaning(init, id);
      pos := OneMoreLeft(init, last, id, Without(init, id), before);
      TaskOrder.WithoutConcat(init, [last], id);
      assert init + [last] == queue;
    }
  }

  lemma OneMoreLeft(queue: seq<string>, last: string, id: string, left: seq<string>, before: seq<nat>)
    returns (pos: seq<nat>)
    requires LeftOut(queue, id, left, before)
    ensures LeftOut(queue + [last], id, left + if last == id then [] else [last], pos)
  {
    pos := OneMoreAtEnd(before, |queue|, last != id);
  }

  // ------------------------------------------------------------------
  // Start and finish

  // Main result 3. The oldest entry leaves the queue, and its task, when there is one, runs.
  lemma StartMeaning(lane: Lane, now: int)
    requires lane.queue != []
    ensures
      var id, after := lane.queue[0], StartLane(lane, now);
      && after.queue == lane.queue[1..] && after.flags == lane.flags
      && if id !in lane.tasks then after.tasks == lane.tasks
        else
          && id in after.tasks && after.tasks == lane.tasks[id := after.tasks[id]]
          && StartNoted(lane.tasks[id], after.tasks[id], now)
  {
    var id := lane.queue[0];
    if id in lane.tasks {
      AppendMeaning(lane.tasks[id].(status := Running, startedAtMs := now), TaskStarted, now);
    }
  }

  predicate StartNoted(t: Task, t': Task, now: int) {
    && t' == t.(status := Running, startedAtMs := now, events := t'.events, nextEventSeq := t'.nextEventSeq)
    && Logged(t, t', TaskStarted, now)
  }

  // How a run ended: a cancel accepted meanwhile wins over any outcome.
  predicate EndedAs(t: Task, outcome: Outcome, timeoutMs: int, flagged: bool) {
    && (flagged ==> t.status == Cancelled && t.error == "Cancelled while running")
    && (!flagged && outcome.Threw? ==> t.status == Failed && t.error == outcome.message)
    && (!flagged && outcome.Returned? && outcome.tookMs > timeoutMs ==>
          t.status == Timeout && t.error == "Task exceeded timeoutMs")
    && (!flagged && outcome.Returned? && outcome.tookMs <= timeoutMs ==> t.status == Done && t.error == "")
    && (outcome.Returned? ==> t.result == outcome.result)
    && (outcome.Threw? ==> t.result == "")
  }

  predicate FinishNoted(t: Task, t': Task, outcome: Outcome, timeoutMs: int, flagged: bool, now: int) {
    && t' == t.(status := t'.status, result := t'.result, error := t'.error, finishedAtMs := now,
                events := t'.events, nextEventSeq := t'.nextEventSeq)
    && EndedAs(t', outcome, timeoutMs, flagged)
    && Logged(t, t', TaskFinished, now)
  }

  // Main result 4. A finished run is recorded in its task, its flag is down, and nothing
  // else changes.
  lemma FinishMeaning(lane: Lane, id: string, outcome: Outcome, timeoutMs: int, now: int)
    ensures
      var after := FinishLane(lane, id, outcome, timeoutMs, now);
      var flagged := id in lane.flags && lane.flags[id];
      && (id !in lane.tasks ==> after == lane)
      && (id in lane.tasks ==>
            && after.queue == lane.queue
            && id in after.tasks && after.tasks == lane.tasks[id := after.tasks[id]]
            && FinishNoted(lane.tasks[id], after.tasks[id], outcome, timeoutMs, flagged, now)
            && !(id in after.flags && after.flags[id])
            && after.flags - {id} == lane.flags - {id})
  {
    if id in lane.tasks {
      FinishedIs(lane.tasks[id], outcome, timeoutMs, GetOr(lane.flags, id, false), now);
    }
  }

  lemma FinishedIs(t: Task, outcome: Outcome, timeoutMs: int, flagged: bool, now: int)
    ensures FinishNoted(t, FinishedTask(t, outcome, timeoutMs, flagged, now), outcome, timeoutMs, flagged, now)
  {
    var ended := FinishedRecord(t, outcome, timeoutMs, flagged, now);
    AppendMeaning(ended, TaskFinished, now);
    LoggedFrom(t, ended, FinishedTask(t, outcome, timeoutMs, flagged, now), TaskFinished, now);
  }

  // Only the ledger of the record before counts.
  lemma LoggedFrom(t: Task, r: Task, t': Task, kind: EventType, now: int)
    requires r.events == t.events && r.nextEventSeq == t.nextEventSeq && Logged(r, t', kind, now)
    ensures Logged(t, t', kind, now)
  {
  }

  // ------------------------------------------------------------------
  // Restart

  // The events of a row with a positive number, at increasing positions.
  ghost predicate Numbered(events: seq<Event>, kept: seq<Event>, pos: seq<nat>) {
    && Increasing(pos, |events|) && |pos| == |kept|
    && (forall i :: 0 <= i < |pos| ==> kept[i] == events[pos[i]])
    && (forall n :: 0 <= n < |events| ==> (n in pos <==> events[n].seqNo > 0))
  }

  ghost predicate RowRead(row: Task, t: Task) {
    && t == row.(events := t.events, nextEventSeq := t.nextEventSeq)
    && (exists pos :: Numbered(row.events, t.events, pos))
    && t.nextEventSeq >= row.nextEventSeq
    && (t.events == [] ==> t.nextEventSeq == row.nextEventSeq)
    && (t.events != [] ==>
          var next := t.events[|t.events| - 1].seqNo + 1;
          t.nextEventSeq >= next && (t.nextEventSeq == next || t.nextEventSeq == row.nextEventSeq))
  }

  ghost predicate Recovered(t: Task, t': Task, now: int) {
    && t' == t.(status := Cancelled, error := "Recovered after restart: previous run interrupted", finishedAtMs := now,
                events := t'.events, nextEventSeq := t'.nextEventSeq)
    && Logged(t, t', TaskRecovered, now)
  }

  // Main result 5. A row is read as it was, its ledger repaired; a task that was running
  // or being cancelled is then over, and says why.
  lemma RowReadMeaning(row: Task)
    ensures RowRead(row, ReadRow(row))
  {
    var pos := PositiveSeqsMeaning(row.events);
  }

  lemma RestoreMeaning(row: Task, now: int)
    ensures if row.status == Running || row.status == Cancelling then Recovered(ReadRow(row), Restore(row, now), now)
      else Restore(row, now) == ReadRow(row)
  {
    var t := ReadRow(row);
    RestoredIs(row, now, t);
    InterruptedMeaning(t, now);
  }

  lemma RestoredIs(row: Task, now: int, t: Task)
    requires t == ReadRow(row)
    ensures Restore(row, now) ==
      if row.status == Running || row.status == Cancelling then
        AppendEvent(Interrupted(t, now), TaskRecovered, Cancelled, now)
      else t
  {
  }

  lemma InterruptedMeaning(t: Task, now: int)
    ensures Recovered(t, AppendEvent(Interrupted(t, now), TaskRecovered, Cancelled, now), now)
  {
    AppendMeaning(Interrupted(t, now), TaskRecovered, now);
    LoggedFrom(t, Interrupted(t, now), AppendEvent(Interrupted(t, now), TaskRecovered, Cancelled, now), TaskRecovered,
               now);
  }

  lemma {:induction false} PositiveSeqsMeaning(events: seq<Event>) returns (pos: seq<nat>)
    ensures Numbered(events, PositiveSeqs(events), pos)
  {
    if events == [] {
      pos := [];
    } else {
      var init, last := events[..|events| - 1], events[|events| - 1];
      var before := PositiveSeqsMeaning(init);
      pos := OneMoreNumbered(init, last, PositiveSeqs(init), before);
      PositiveSeqsSnoc(init, last);
      assert init + [last] == events;
    }
  }

  lemma {:induction false} PositiveSeqsSnoc(events: seq<Event>, last: Event)
    ensures PositiveSeqs(events + [last]) == PositiveSeqs(events) + if last.seqNo > 0 then [last] else []
  {
    if events == [] {
      assert events + [last] == [last] && [last][1..] == [];
    } else {
      PositiveSeqsSnoc(events[1..], last);
      assert (events + [last])[1..] == events[1..] + [last];
    }
  }

  lemma OneMoreNumbered(events: seq<Event>, last: Event, kept: seq<Event>, before: seq<nat>) returns (pos: seq<nat>)
    requires Numbered(events, kept, before)
    ensures Numbered(events + [last], kept + if last.seqNo > 0 then [last] else [], pos)
  {
    pos := OneMoreAtEnd(before, |events|, last.seqNo > 0);
  }

  // A loaded queue is the queued rows with an id, in the order of the file.
  ghost predicate QueuedAt(rows: seq<Task>, ids: seq<string>, pos: seq<nat>) {
    && Increasing(pos, |rows|) && |pos| == |ids|
    && (forall i :: 0 <= i < |pos| ==> ids[i] == rows[pos[i]].id)
    && (forall n :: 0 <= n < |rows| ==> (n in pos <==> rows[n].status == Queued && rows[n].id != ""))
  }

  lemma {:induction false} LoadQueueMeaning(rows: seq<Task>) returns (pos: seq<nat>)
    ensures QueuedAt(rows, QueuedIds(rows), pos)
  {
    if rows == [] {
      pos := [];
    } else {
      var n := |rows| - 1;
      var before := LoadQueueMeaning(rows[..n]);
      pos := OneMoreQueued(rows[..n], rows[n], QueuedIds(rows[..n]), before);
      assert rows[..n] + [rows[n]] == rows;
    }
  }

  lemma OneMoreQueued(init: seq<Task>, last: Task, ids: seq<string>, before: seq<nat>) returns (pos: seq<nat>)
    requires QueuedAt(init, ids, before)
    ensures QueuedAt(init + [last], ids + if last.id != "" && last.status.Queued? then [last.id] else [], pos)
  {
    pos := OneMoreAtEnd(before, |init|, last.id != "" && last.status.Queued?);
  }

  // The loaded table holds the last row of every id, and no flag is up.
  lemma {:induction false} LoadTableMeaning(rows: seq<Task>, now: int, id: string) returns (i: int)
    ensures id in LoadLane(rows, now).tasks <==> id != "" && exists k :: 0 <= k < |rows| && rows[k].id == id
    ensures id in LoadLane(rows, now).tasks ==>
      && 0 <= i < |rows| && rows[i].id == id && (forall k :: i < k < |rows| ==> rows[k].id != id)
      && LoadLane(rows, now).tasks[id] == Restore(rows[i], now)
    ensures LoadLane(rows, now).flags == map[]
  {
    i := -1;
    if rows != [] {
      var n := |rows| - 1;
      i := LoadTableMeaning(rows[..n], now, id);
      if rows[n].id == id {
        i := n;
      }
      if k :| 0 <= k < n && rows[..n][k].id == id {
        assert rows[k].id == id;
      }
      if k :| 0 <= k < n && rows[k].id == id {
        assert rows[..n][k].id == id;
      }
    }
  }
}
