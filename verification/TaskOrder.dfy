// First in, first out: between two restarts tasks start in the order they came in.
module TaskOrder {
  import opened Prelude
  import opened Json
  import opened TaskQueue
  import opened TaskLane

  // The id that a step puts into the queue, if any.
  function Arrived(c: Config, s: Sys, step: Step): seq<string> {
    if step.Enqueue? && step.id !in s.lane.tasks && step.id != ""
       && EnqueueReply(c, s.lane, step.body, step.id, step.now).Accepted? then [step.id]
    else []
  }

  // The id that a step hands to the worker, if any.
  function Started(s: Sys, step: Step): seq<string> {
    if step.Start? && s.worker.Idle? && s.lane.queue != [] then [s.lane.queue[0]] else []
  }

  ghost function Arrivals(c: Config, steps: seq<Step>, more: seq<Step>): seq<string> {
    if more == [] then []
    else
      var n := |more| - 1;
      Arrivals(c, steps, more[..n]) + Arrived(c, Run(c, steps + more[..n]), more[n])
  }

  ghost function Starts(c: Config, steps: seq<Step>, more: seq<Step>): seq<string> {
    if more == [] then []
    else
      var n := |more| - 1;
      Starts(c, steps, more[..n]) + Started(Run(c, steps + more[..n]), more[n])
  }

  // Cancelled before the worker got to it.
  predicate Dropped(h: map<string, seq<Event>>, id: string) {
    EndsWith(GetOr(h, id, []), TaskCancelled)
  }

  function Kept(h: map<string, seq<Event>>, ids: seq<string>): seq<string> {
    if ids == [] then []
    else Kept(h, ids[..|ids| - 1]) + if Dropped(h, ids[|ids| - 1]) then [] else [ids[|ids| - 1]]
  }

  // ------------------------------------------------------------------
  // Lists of ids

  lemma KeptSnoc(h: map<string, seq<Event>>, ids: seq<string>, id: string)
    ensures Kept(h, ids + [id]) == Kept(h, ids) + if Dropped(h, id) then [] else [id]
  {
    assert (ids + [id])[..|ids|] == ids;
  }

  lemma {:induction false} SameKept(h: map<string, seq<Event>>, h': map<string, seq<Event>>, ids: seq<string>)
    requires forall id :: id in ids ==> (Dropped(h', id) <==> Dropped(h, id))
    ensures Kept(h', ids) == Kept(h, ids)
  {
    if ids != [] {
      SameKept(h, h', ids[..|ids| - 1]);
      assert ids[|ids| - 1] in ids;
    }
  }

  lemma {:induction false} AllKept(h: map<string, seq<Event>>, ids: seq<string>)
    requires forall id :: id in ids ==> !Dropped(h, id)
    ensures Kept(h, ids) == ids
  {
    if ids != [] {
      AllKept(h, ids[..|ids| - 1]);
      assert ids[|ids| - 1] in ids;
      assert ids == ids[..|ids| - 1] + [ids[|ids| - 1]];
    }
  }

  lemma {:induction false} KeptMembers(h: map<string, seq<Event>>, ids: seq<string>)
    ensures forall id :: id in Kept(h, ids) <==> id in ids && !Dropped(h, id)
    ensures NoDuplicates(ids) ==> NoDuplicates(Kept(h, ids))
  {
    if ids != [] {
      KeptMembers(h, ids[..|ids| - 1]);
      assert ids == ids[..|ids| - 1] + [ids[|ids| - 1]];
    }
  }

  lemma {:induction false} WithoutConcat(a: seq<string>, b: seq<string>, id: string)
    ensures Without(a + b, id) == Without(a, id) + Without(b, id)
  {
    if a == [] {
      assert a + b == b;
    } else {
      WithoutConcat(a[1..], b, id);
      assert (a + b)[1..] == a[1..] + b;
      Regroup(if a[0] == id then [] else [a[0]], Without(a[1..], id), Without(b, id));
    }
  }

  lemma {:induction false} WithoutAbsent(ids: seq<string>, id: string)
    requires id !in ids
    ensures Without(ids, id) == ids
  {
    if ids != [] {
      WithoutAbsent(ids[1..], id);
    }
  }

  // Dropping one more id takes it out of the list.
  lemma {:induction false} DropOne(h: map<string, seq<Event>>, h': map<string, seq<Event>>, ids: seq<string>,
                                   id: string)
    requires Dropped(h', id)
    requires forall k :: k in ids && k != id ==> (Dropped(h', k) <==> Dropped(h, k))
    ensures Kept(h', ids) == Without(Kept(h, ids), id)
  {
    if ids != [] {
      var n := |ids| - 1;
      DropOne(h, h', ids[..n], id);
      assert ids[n] in ids;
      WithoutConcat(Kept(h, ids[..n]), if Dropped(h, ids[n]) then [] else [ids[n]], id);
      assert [ids[n]][1..] == [];
    }
  }

  // ------------------------------------------------------------------
  // One step

  // What came in, as far as it was not dropped, is what was started and then the queue.
  ghost predicate InOrder(s: Sys, arrivals: seq<string>, starts: seq<string>) {
    && NoDuplicates(arrivals)
    && (forall id :: id in arrivals ==> id in s.lane.tasks)
    && Kept(s.history, arrivals) == starts + s.lane.queue
  }

  // A step that leaves the queue alone and cancels nothing that is queued.
  lemma QuietKeepsOrder(s: Sys, s': Sys, arrivals: seq<string>, starts: seq<string>)
    requires InOrder(s, arrivals, starts)
    requires s'.lane.queue == s.lane.queue && s.lane.tasks.Keys <= s'.lane.tasks.Keys
    requires forall id :: id in s.lane.tasks ==> (Dropped(s'.history, id) <==> Dropped(s.history, id))
    ensures InOrder(s', arrivals, starts)
  {
    SameKept(s.history, s'.history, arrivals);
  }

  // Only a task that is cancelled counts as dropped.
  lemma NotDroppedYet(s: Sys, id: string)
    requires Inv(s) && id in s.lane.tasks && s.lane.tasks[id].status != Cancelled
    ensures id in s.history && !Dropped(s.history, id)
  {
    assert FacetOk(id, FacetOf(s, id));
    ReplayStatus(s.history[id]);
  }

  // One more event on one task.
  lemma OneMoreEvent(s: Sys, id: string, t: Task, kind: EventType, status: Status, now: int, k: string)
    requires Inv(s) && id in s.lane.tasks && t.nextEventSeq == s.lane.tasks[id].nextEventSeq
    ensures var h' := Observe(s.history, s.lane.tasks, s.lane.tasks[id := AppendEvent(t, kind, status, now)]);
      Dropped(h', k) <==> if k == id then kind == TaskCancelled else Dropped(s.history, k)
  {
    assert FacetOk(id, FacetOf(s, id));
    ObserveOne(s.history, s.lane.tasks, id, t, kind, status, now);
  }

  lemma EnqueueKeepsOrder(c: Config, s: Sys, body: Json, id: string, now: int, arrivals: seq<string>,
                          starts: seq<string>)
    requires Inv(s) && InOrder(s, arrivals, starts)
    ensures var step := Enqueue(body, id, now);
      InOrder(Apply(c, s, step), arrivals + Arrived(c, s, step), starts)
  {
    assert arrivals + [] == arrivals;
    if id !in s.lane.tasks && id != "" {
      EnqueueMeaning(c, s, body, id, now);
      if EnqueueReply(c, s.lane, body, id, now).Accepted? {
        AddKeepsOrder(s, id, ReadRequest(c, body).value, now, arrivals, starts);
      }
    }
  }

  lemma AddKeepsOrder(s: Sys, id: string, r: Request, now: int, arrivals: seq<string>, starts: seq<string>)
    requires Inv(s) && InOrder(s, arrivals, starts) && id !in s.lane.tasks
    ensures InOrder(Added(s, id, NewTask(r, id, now)), arrivals + [id], starts)
  {
    var t := NewTask(r, id, now);
    NewTaskIsWaiting(r, id, now);
    ObserveNew(s.history, s.lane.tasks, id, t);
    var h' := s.history[id := t.events];
    assert id !in arrivals;
    SameKept(s.history, h', arrivals);
    KeptSnoc(h', arrivals, id);
    Regroup(starts, s.lane.queue, [id]);
    QueueGrows(arrivals, id);
  }

  lemma CancelKeepsOrder(c: Config, s: Sys, id: string, now: int, arrivals: seq<string>, starts: seq<string>)
    requires Inv(s) && InOrder(s, arrivals, starts)
    ensures InOrder(Apply(c, s, Cancel(id, now)), arrivals, starts)
  {
    if CancelReply(s.lane, id, now).Refused? {
      ObserveNothing(s.history, s.lane.tasks);
    } else {
      var t := s.lane.tasks[id];
      match t.status {
        case Queued => DropKeepsOrder(s, id, now, arrivals, starts);
        case Running => CancelInHandKeepsOrder(s, id, t.(status := Cancelling), TaskCancelling,
            s.lane.flags[id := true], now, arrivals, starts);
        case Cancelling => CancelInHandKeepsOrder(s, id, t, TaskCancelIgnored, s.lane.flags, now, arrivals, starts);
      }
    }
  }

  lemma CancelInHandKeepsOrder(s: Sys, id: string, t: Task, kind: EventType, flags: map<string, bool>, now: int,
                               arrivals: seq<string>, starts: seq<string>)
    requires Inv(s) && InOrder(s, arrivals, starts)
    requires id in s.lane.tasks && s.lane.tasks[id].status.InHand() && t.nextEventSeq == s.lane.tasks[id].nextEventSeq
    requires kind != TaskCancelled
    ensures InOrder(Moved(s, id, AppendEvent(t, kind, t.status, now), s.lane.queue, flags, s.worker), arrivals, starts)
  {
    MoveInHandKeepsOrder(s, id, t, kind, flags, s.worker, now, arrivals, starts);
  }

  // An event on a task that has left the queue.
  lemma MoveInHandKeepsOrder(s: Sys, id: string, t: Task, kind: EventType, flags: map<string, bool>, worker: Worker,
                             now: int, arrivals: seq<string>, starts: seq<string>)
    requires Inv(s) && InOrder(s, arrivals, starts)
    requires id in s.lane.tasks && s.lane.tasks[id].status.InHand() && t.nextEventSeq == s.lane.tasks[id].nextEventSeq
    requires kind != TaskCancelled
    ensures InOrder(Moved(s, id, AppendEvent(t, kind, t.status, now), s.lane.queue, flags, worker), arrivals, starts)
  {
    var s' := Moved(s, id, AppendEvent(t, kind, t.status, now), s.lane.queue, flags, worker);
    NotDroppedYet(s, id);
    forall k: string
      ensures Dropped(s'.history, k) <==> Dropped(s.history, k)
    {
      OneMoreEvent(s, id, t, kind, t.status, now, k);
    }
    QuietKeepsOrder(s, s', arrivals, starts);
  }

  lemma DropKeepsOrder(s: Sys, id: string, now: int, arrivals: seq<string>, starts: seq<string>)
    requires Inv(s) && InOrder(s, arrivals, starts)
    requires id in s.lane.tasks && s.lane.tasks[id].status.Queued?
    ensures
      var s' := Moved(s, id, CancelledTask(s.lane.tasks[id], now), Without(s.lane.queue, id), s.lane.flags, s.worker);
      InOrder(s', arrivals, starts)
  {
    var t := s.lane.tasks[id].(status := Cancelled, finishedAtMs := now, error := "Cancelled by user");
    var h' := Observe(s.history, s.lane.tasks, s.lane.tasks[id := AppendEvent(t, TaskCancelled, Cancelled, now)]);
    forall k: string
      ensures Dropped(h', k) <==> k == id || Dropped(s.history, k)
    {
      OneMoreEvent(s, id, t, TaskCancelled, Cancelled, now, k);
    }
    DropOne(s.history, h', arrivals, id);
    WithoutConcat(starts, s.lane.queue, id);
    QueuedIsNotStarted(s, id, arrivals, starts);
    WithoutAbsent(starts, id);
  }

  lemma QueuedIsNotStarted(s: Sys, id: string, arrivals: seq<string>, starts: seq<string>)
    requires Inv(s) && InOrder(s, arrivals, starts)
    requires id in s.lane.tasks && s.lane.tasks[id].status.Queued?
    ensures id !in starts
  {
    assert FacetOk(id, FacetOf(s, id));
    KeptMembers(s.history, arrivals);
    if id in starts {
      InBothIsTwice(starts, s.lane.queue, id);
    }
  }

  lemma InBothIsTwice(a: seq<string>, b: seq<string>, id: string)
    requires id in a && id in b
    ensures !NoDuplicates(a + b)
  {
    var i :| 0 <= i < |a| && a[i] == id;
    var j :| 0 <= j < |b| && b[j] == id;
    assert (a + b)[i] == (a + b)[|a| + j];
  }

  lemma StartKeepsOrder(c: Config, s: Sys, now: int, arrivals: seq<string>, starts: seq<string>)
    requires Inv(s) && InOrder(s, arrivals, starts)
    ensures InOrder(Apply(c, s, Start(now)), arrivals, starts + Started(s, Start(now)))
  {
    assert starts + [] == starts;
    if s.worker.Idle? && s.lane.queue != [] {
      var id := s.lane.queue[0];
      assert id in s.lane.queue;
      assert FacetOk(id, FacetOf(s, id));
      var t := s.lane.tasks[id].(status := Running, startedAtMs := now);
      var s' := Apply(c, s, Start(now));
      NotDroppedYet(s, id);
      forall k: string
        ensures Dropped(s'.history, k) <==> Dropped(s.history, k)
      {
        OneMoreEvent(s, id, t, TaskStarted, Running, now, k);
      }
      SameKept(s.history, s'.history, arrivals);
      assert s.lane.queue == [id] + s.lane.queue[1..];
      Regroup(starts, [id], s.lane.queue[1..]);
    }
  }

  lemma FinishKeepsOrder(c: Config, s: Sys, outcome: Outcome, now: int, arrivals: seq<string>, starts: seq<string>)
    requires Inv(s) && InOrder(s, arrivals, starts)
    ensures InOrder(Apply(c, s, Finish(outcome, now)), arrivals, starts)
  {
    if s.worker.Executing? {
      var copy := s.worker.copy;
      assert FacetOk(copy.id, FacetOf(s, copy.id));
      var flags := FinishLane(s.lane, copy.id, outcome, copy.timeoutMs, now).flags;
      var t := FinishedRecord(s.lane.tasks[copy.id], outcome, copy.timeoutMs, GetOr(s.lane.flags, copy.id, false), now);
      MoveInHandKeepsOrder(s, copy.id, t, TaskFinished, flags, Idle, now, arrivals, starts);
    }
  }

  lemma StepKeepsOrder(c: Config, s: Sys, step: Step, arrivals: seq<string>, starts: seq<string>)
    requires Inv(s) && InOrder(s, arrivals, starts) && !step.Crash?
    ensures InOrder(Apply(c, s, step), arrivals + Arrived(c, s, step), starts + Started(s, step))
  {
    assert arrivals + [] == arrivals && starts + [] == starts;
    match step
    case Enqueue(body, id, now) => EnqueueKeepsOrder(c, s, body, id, now, arrivals, starts);
    case Cancel(id, now) => CancelKeepsOrder(c, s, id, now, arrivals, starts);
    case Start(now) => StartKeepsOrder(c, s, now, arrivals, starts);
    case Invoke =>
    case Finish(outcome, now) => FinishKeepsOrder(c, s, outcome, now, arrivals, starts);
  }

  // ------------------------------------------------------------------
  // Whole runs

  ghost predicate NoCrash(steps: seq<Step>) {
    forall i :: 0 <= i < |steps| ==> !steps[i].Crash?
  }

  lemma QueueIsKept(s: Sys)
    requires Inv(s)
    ensures InOrder(s, s.lane.queue, [])
  {
    forall id | id in s.lane.queue
      ensures id in s.lane.tasks && !Dropped(s.history, id)
    {
      assert FacetOk(id, FacetOf(s, id));
      NotDroppedYet(s, id);
    }
    AllKept(s.history, s.lane.queue);
  }

  ghost predicate Ordered(c: Config, steps: seq<Step>, more: seq<Step>) {
    InOrder(Run(c, steps + more), Run(c, steps).lane.queue + Arrivals(c, steps, more), Starts(c, steps, more))
  }

  lemma NothingYet(c: Config, steps: seq<Step>)
    ensures Ordered(c, steps, [])
  {
    assert steps + [] == steps;
    assert Run(c, steps).lane.queue + Arrivals(c, steps, []) == Run(c, steps).lane.queue;
    EveryRunKeepsInv(c, steps);
    QueueIsKept(Run(c, steps));
  }

  lemma OneMoreStep(c: Config, steps: seq<Step>, more: seq<Step>, step: Step)
    requires Ordered(c, steps, more) && !step.Crash?
    ensures Ordered(c, steps, more + [step])
  {
    var s, waiting := Run(c, steps + more), Run(c, steps).lane.queue;
    EveryRunKeepsInv(c, steps + more);
    StepKeepsOrder(c, s, step, waiting + Arrivals(c, steps, more), Starts(c, steps, more));
    LedgersSnoc(c, steps, more, step);
    Regroup(waiting, Arrivals(c, steps, more), Arrived(c, s, step));
    RunSnoc(c, steps + more, step);
    Regroup(steps, more, [step]);
  }

  lemma LastStep(c: Config, steps: seq<Step>, more: seq<Step>)
    requires more != [] && Ordered(c, steps, more[..|more| - 1]) && !more[|more| - 1].Crash?
    ensures Ordered(c, steps, more)
  {
    var init, last := more[..|more| - 1], more[|more| - 1];
    OneMoreStep(c, steps, init, last);
    SplitLast(more);
  }

  lemma LedgersSnoc(c: Config, steps: seq<Step>, more: seq<Step>, step: Step)
    ensures Arrivals(c, steps, more + [step]) == Arrivals(c, steps, more) + Arrived(c, Run(c, steps + more), step)
    ensures Starts(c, steps, more + [step]) == Starts(c, steps, more) + Started(Run(c, steps + more), step)
  {
    assert (more + [step])[..|more|] == more;
  }

  lemma {:induction false} OrderIsKept(c: Config, steps: seq<Step>, more: seq<Step>)
    requires NoCrash(more)
    ensures Ordered(c, steps, more)
  {
    if more == [] {
      NothingYet(c, steps);
    } else {
      var n := |more| - 1;
      OrderIsKept(c, steps, more[..n]);
      LastStep(c, steps, more);
    }
  }

  // Main result. Take the queue at any moment of any run, and everything enqueued from then
  // on in the same process. Without the tasks cancelled while queued, that list is exactly
  // what the worker has started since, in this order, and then what is queued now.
  lemma FirstInFirstOut(c: Config, steps: seq<Step>, more: seq<Step>)
    requires NoCrash(more)
    ensures
      var s, s' := Run(c, steps), Run(c, steps + more);
      var arrivals := s.lane.queue + Arrivals(c, steps, more);
      NoDuplicates(arrivals) && Kept(s'.history, arrivals) == Starts(c, steps, more) + s'.lane.queue
  {
    OrderIsKept(c, steps, more);
  }
}
