// The task queue over whole runs: API calls, the worker and crashes in any interleaving.
module TaskLane {
  import opened Prelude
  import opened TaskQueue
  import opened Json
  import opened RuntimePolicy
  import TaskForm

  // Where the single worker thread stands. `copy` is the record it took in its second
  // locked section, just before invoking the executor.
  datatype Worker = Idle | Holding(id: string) | Executing(copy: Task)

  // `saved` is the table as last written to disk. `execs` and `history` only observe:
  // how often the executor was invoked for a task, and every event ever appended to it.
  datatype Sys = Sys(
    lane: Lane,
    saved: map<string, Task>,
    worker: Worker,
    execs: map<string, nat>,
    history: map<string, seq<Event>>)

  datatype Step =
    | Enqueue(body: Json, id: string, now: int)
    | Cancel(cancelId: string, now: int)
    | Start(now: int)
    | Invoke
    | Finish(outcome: Outcome, now: int)
    | Crash(rows: seq<Task>, now: int)

  function Initial(): Sys {
    Sys(Lane([], map[], map[]), map[], Idle, map[], map[])
  }

  // ------------------------------------------------------------------
  // Observing events

  // appendEvent ran on `id` exactly when its next sequence number moved.
  predicate Touched(before: map<string, Task>, after: map<string, Task>, id: string)
    requires id in after
  {
    && after[id].events != []
    && (id !in before || before[id].nextEventSeq != after[id].nextEventSeq)
  }

  function Observe(h: map<string, seq<Event>>, before: map<string, Task>,
                   after: map<string, Task>): map<string, seq<Event>> {
    map id | id in after ::
      GetOr(h, id, []) + if Touched(before, after, id) then [after[id].events[|after[id].events| - 1]] else []
  }

  // ------------------------------------------------------------------
  // One atomic step; a step that is not possible in the state changes nothing

  ghost function Apply(c: Config, s: Sys, step: Step): Sys {
    match step
    case Enqueue(body, id, now) =>
      // genTaskId repeats until the id is not in the table; it is never empty
      if id in s.lane.tasks || id == "" then s
      else
        var lane := EnqueueLane(c, s.lane, body, id, now);
        s.(lane := lane,
           saved := if EnqueueReply(c, s.lane, body, id, now).Accepted? then lane.tasks else s.saved,
           history := Observe(s.history, s.lane.tasks, lane.tasks))
    case Cancel(id, now) =>
      var lane := CancelLane(s.lane, id, now);
      s.(lane := lane,
         saved := if CancelReply(s.lane, id, now).Accepted? then lane.tasks else s.saved,
         history := Observe(s.history, s.lane.tasks, lane.tasks))
    case Start(now) =>
      if !s.worker.Idle? || s.lane.queue == [] then s
      else
        var id := s.lane.queue[0];
        var lane := StartLane(s.lane, now);
        if id in s.lane.tasks then
          s.(lane := lane, saved := lane.tasks, worker := Holding(id),
             history := Observe(s.history, s.lane.tasks, lane.tasks))
        else s.(lane := lane)
    case Invoke =>
      if !s.worker.Holding? || s.worker.id !in s.lane.tasks then s
      else
        var id := s.worker.id;
        s.(worker := Executing(s.lane.tasks[id]), execs := s.execs[id := GetOr(s.execs, id, 0) + 1])
    case Finish(outcome, now) =>
      if !s.worker.Executing? then s
      else
        var copy := s.worker.copy;
        var lane := FinishLane(s.lane, copy.id, outcome, copy.timeoutMs, now);
        s.(lane := lane, worker := Idle,
           saved := if copy.id in s.lane.tasks then lane.tasks else s.saved,
           history := Observe(s.history, s.lane.tasks, lane.tasks))
    case Crash(rows, now) =>
      // `rows` is the table of the last save in the order it was written; what the new
      // process gets is the text of these rows, read back
      if !Lists(rows, s.saved) then s else Reloaded(s, TaskForm.ReadFile(c, TaskForm.FileJson(rows), now), now)
  }

  // A new process with what it read; it does not come up on a file it cannot read.
  function Reloaded(s: Sys, rows: Read<seq<Task>>, now: int): Sys {
    match rows
    case Ok(read) =>
      var lane := LoadLane(read, now);
      s.(lane := lane, saved := lane.tasks, worker := Idle,
         history := Observe(s.history, s.saved, lane.tasks))
    case _ => s
  }

  ghost function Run(c: Config, steps: seq<Step>): Sys {
    if steps == [] then Initial()
    else Apply(c, Run(c, steps[..|steps| - 1]), steps[|steps| - 1])
  }

  lemma RunSnoc(c: Config, steps: seq<Step>, step: Step)
    ensures Run(c, steps + [step]) == Apply(c, Run(c, steps), step)
  {
    assert (steps + [step])[..|steps|] == steps;
  }

  // ------------------------------------------------------------------
  // The life of one task: enqueued (cancelled | started (cancelling cancel_ignored*)?
  // (finished | recovered)), as an automaton over (event, status) pairs

  datatype Phase = Fresh | Waiting | Active | Stopping | Over(final: Status)

  function Advance(p: Phase, e: Event): Option<Phase> {
    match (p, e.kind, e.status)
    case (Fresh, TaskEnqueued, Queued) => Some(Waiting)
    case (Waiting, TaskCancelled, Cancelled) => Some(Over(Cancelled))
    case (Waiting, TaskStarted, Running) => Some(Active)
    case (Active, TaskCancelling, Cancelling) => Some(Stopping)
    case (Stopping, TaskCancelIgnored, Cancelling) => Some(Stopping)
    case (Active, TaskFinished, Done) => Some(Over(Done))
    case (Active, TaskFinished, Failed) => Some(Over(Failed))
    case (Active, TaskFinished, Timeout) => Some(Over(Timeout))
    case (Stopping, TaskFinished, Cancelled) => Some(Over(Cancelled))
    case (Active, TaskRecovered, Cancelled) => Some(Over(Cancelled))
    case (Stopping, TaskRecovered, Cancelled) => Some(Over(Cancelled))
    case _ => None
  }

  function Replay(h: seq<Event>): Option<Phase> {
    if h == [] then Some(Fresh)
    else
      var p :- Replay(h[..|h| - 1]);
      Advance(p, h[|h| - 1])
  }

  // The status a task must show in each phase.
  function Shown(p: Phase): Status {
    match p
    case Fresh => Queued
    case Waiting => Queued
    case Active => Running
    case Stopping => Cancelling
    case Over(final) => final
  }

  // ------------------------------------------------------------------
  // The invariant

  // The stored ledger is the tail of the full history, numbered without a gap.
  ghost predicate LedgerOk(t: Task, h: seq<Event>) {
    && t.events == LastN(h, MAX_EVENTS)
    && t.nextEventSeq == |h| + 1
    && forall i :: 0 <= i < |h| ==> h[i].seqNo == i + 1
  }

  ghost predicate LifeOk(t: Task, h: seq<Event>) {
    var p := Replay(h);
    p.Some? && !p.value.Fresh? && t.status == Shown(p.value) && (p.value.Over? ==> p.value.final.Terminal())
  }

  ghost predicate NoDuplicates(q: seq<string>) {
    forall i, j :: 0 <= i < j < |q| ==> q[i] != q[j]
  }

  // Everything the system knows about one task id.
  datatype Facet = Facet(
    task: Option<Task>,
    history: Option<seq<Event>>,
    queued: bool,
    flag: bool,
    worker: Worker,
    execs: nat)

  // The worker, as far as it concerns `id`.
  function WorkerOn(w: Worker, id: string): Worker {
    match w
    case Idle => Idle
    case Holding(held) => if held == id then w else Idle
    case Executing(copy) => if copy.id == id then w else Idle
  }

  function Lookup<K, V>(m: map<K, V>, k: K): Option<V> {
    if k in m then Some(m[k]) else None
  }

  function FacetOf(s: Sys, id: string): Facet {
    Facet(Lookup(s.lane.tasks, id), Lookup(s.history, id), id in s.lane.queue, GetOr(s.lane.flags, id, false),
          WorkerOn(s.worker, id), GetOr(s.execs, id, 0))
  }

  // What was accepted stays what it was.
  predicate SameRequest(t: Task, t': Task) {
    && t'.id == t.id && t'.channel == t.channel && t'.peerId == t.peerId && t'.text == t.text
    && t'.systemEvent == t.systemEvent && t'.timeoutMs == t.timeoutMs && t'.context == t.context && t'.tools == t.tools
    && t'.createdAtMs == t.createdAtMs
  }

  ghost predicate FacetOk(id: string, f: Facet) {
    match f.task
    case None => f == Facet(None, None, false, false, Idle, 0)
    case Some(t) =>
      && t.id == id && id != ""
      && f.history.Some? && LedgerOk(t, f.history.value) && LifeOk(t, f.history.value)
      // queue_ holds exactly the queued tasks
      && f.queued == t.status.Queued?
      // a cancel flag is true exactly while its task is cancelling
      && f.flag == t.status.Cancelling?
      // the worker holds exactly the task that is running or cancelling
      && (!f.worker.Idle?) == t.status.InHand()
      && (f.worker.Executing? ==> SameRequest(f.worker.copy, t))
      // what the observer can have counted
      && f.execs <= 1
      && (t.status.Queued? || f.worker.Holding? ==> f.execs == 0)
      && (f.worker.Executing? || t.status in {Done, Failed, Timeout} ==> f.execs == 1)
      && (EndsWith(f.history.value, TaskCancelled) ==> f.execs == 0)
      && (EndsWith(f.history.value, TaskFinished) ==> f.execs == 1)
  }

  predicate EndsWith(h: seq<Event>, kind: EventType) {
    h != [] && h[|h| - 1].kind == kind
  }

  ghost predicate Inv(s: Sys) {
    && (forall id: string :: FacetOk(id, FacetOf(s, id)))
    && NoDuplicates(s.lane.queue)
    && s.history.Keys == s.lane.tasks.Keys
    && s.saved == s.lane.tasks
  }

  // ------------------------------------------------------------------
  // Appending one event

  lemma AppendKeepsLedger(t: Task, h: seq<Event>, kind: EventType, status: Status, now: int)
    requires LedgerOk(t, h)
    ensures var e := NextEvent(t, kind, status, now);
      LedgerOk(AppendEvent(t, kind, status, now), h + [e]) && e.seqNo == |h| + 1
  {
    var e := NextEvent(t, kind, status, now);
    var t' := AppendEvent(t, kind, status, now);
    var all := h + [e];
    assert t'.events == LastN(all, MAX_EVENTS);
  }

  lemma ReplaySnoc(h: seq<Event>, e: Event)
    ensures Replay(h + [e]) == if Replay(h).Some? then Advance(Replay(h).value, e) else None
  {
    assert (h + [e])[..|h|] == h;
  }

  // A step that appends one event to one task is observed as exactly that.
  lemma ObserveOne(h: map<string, seq<Event>>, before: map<string, Task>, id: string, t: Task, kind: EventType,
                   status: Status, now: int)
    requires h.Keys == before.Keys
    requires id in before && before[id].nextEventSeq == t.nextEventSeq >= 1
    ensures Observe(h, before, before[id := AppendEvent(t, kind, status, now)])
         == h[id := h[id] + [NextEvent(t, kind, status, now)]]
  {
    var t' := AppendEvent(t, kind, status, now);
    var after := before[id := t'];
    assert t'.events[|t'.events| - 1] == NextEvent(t, kind, status, now);
    var observed := Observe(h, before, after);
    forall k | k in after
      ensures observed[k] == h[id := h[id] + [NextEvent(t, kind, status, now)]][k]
    {
      assert Touched(before, after, k) <==> k == id;
    }
  }

  // The automaton accepts `e` after `h`, and then shows the status `e` carries.
  ghost predicate CanAppend(h: seq<Event>, e: Event) {
    var p := Replay(h);
    && p.Some?
    && var q := Advance(p.value, e);
    && q.Some? && !q.value.Fresh? && Shown(q.value) == e.status && (q.value.Over? ==> e.status.Terminal())
  }

  // One task moves on, the file follows: what cancel, start and finish have in common.
  ghost function Moved(s: Sys, id: string, t: Task, queue: seq<string>, flags: map<string, bool>, worker: Worker): Sys {
    var tasks' := s.lane.tasks[id := t];
    s.(lane := Lane(queue, tasks', flags), saved := tasks', worker := worker,
       history := Observe(s.history, s.lane.tasks, tasks'))
  }

  // Appending an event the automaton accepts keeps ledger and life history right.
  lemma AppendKeepsTask(t: Task, h: seq<Event>, kind: EventType, status: Status, now: int)
    requires LedgerOk(t, h) && t.status == status
    requires CanAppend(h, NextEvent(t, kind, status, now))
    ensures var h' := h + [NextEvent(t, kind, status, now)];
      LedgerOk(AppendEvent(t, kind, status, now), h') && LifeOk(AppendEvent(t, kind, status, now), h')
  {
    AppendKeepsLedger(t, h, kind, status, now);
    ReplaySnoc(h, NextEvent(t, kind, status, now));
  }

  // The invariant after such a move, from what it does to the one id and to the others.
  lemma MoveKeepsInv(s: Sys, id: string, t: Task, kind: EventType, now: int,
                     queue: seq<string>, flags: map<string, bool>, worker: Worker)
    requires Inv(s) && id in s.lane.tasks
    requires
      var t0 := s.lane.tasks[id];
      SameRequest(t0, t) && t.events == t0.events && t.nextEventSeq == t0.nextEventSeq
    requires CanAppend(s.history[id], NextEvent(t, kind, t.status, now))
    requires NoDuplicates(queue)
    requires forall k :: k != id ==> (k in queue) == (k in s.lane.queue)
    requires forall k :: k != id ==> GetOr(flags, k, false) == GetOr(s.lane.flags, k, false)
    requires forall k :: k != id ==> WorkerOn(worker, k) == WorkerOn(s.worker, k)
    requires
      var t' := AppendEvent(t, kind, t.status, now);
      var h' := s.history[id] + [NextEvent(t, kind, t.status, now)];
      LedgerOk(t', h') && LifeOk(t', h') ==>
        FacetOk(id, Facet(Some(t'), Some(h'), id in queue, GetOr(flags, id, false), WorkerOn(worker, id),
            GetOr(s.execs, id, 0)))
    ensures Inv(Moved(s, id, AppendEvent(t, kind, t.status, now), queue, flags, worker))
  {
    var t', h' := AppendEvent(t, kind, t.status, now), s.history[id] + [NextEvent(t, kind, t.status, now)];
    var s' := Moved(s, id, t', queue, flags, worker);
    assert FacetOk(id, FacetOf(s, id));
    ObserveOne(s.history, s.lane.tasks, id, t, kind, t.status, now);
    AppendKeepsTask(t, s.history[id], kind, t.status, now);
    forall k: string
      ensures FacetOk(k, FacetOf(s', k))
    {
      assert FacetOk(k, FacetOf(s, k));
      MovedFacet(s, id, t', h', queue, flags, worker, k);
    }
  }

  // A move is felt by the one id alone.
  lemma MovedFacet(s: Sys, id: string, t: Task, h: seq<Event>, queue: seq<string>, flags: map<string, bool>,
                   worker: Worker, k: string)
    requires id in s.lane.tasks
    requires k != id ==> (k in queue) == (k in s.lane.queue)
    requires k != id ==> GetOr(flags, k, false) == GetOr(s.lane.flags, k, false)
    requires k != id ==> WorkerOn(worker, k) == WorkerOn(s.worker, k)
    requires Moved(s, id, t, queue, flags, worker).history == s.history[id := h]
    ensures FacetOf(Moved(s, id, t, queue, flags, worker), k)
         == if k == id then Facet(Some(t), Some(h), id in queue, GetOr(flags, id, false), WorkerOn(worker, id),
             GetOr(s.execs, id, 0))
            else FacetOf(s, k)
  {
  }

  // A section that refuses leaves the observation alone.
  lemma ObserveNothing(h: map<string, seq<Event>>, tasks: map<string, Task>)
    requires h.Keys == tasks.Keys
    ensures Observe(h, tasks, tasks) == h
  {
    var observed := Observe(h, tasks, tasks);
    assert observed.Keys == h.Keys;
    assert forall k :: k in h ==> observed[k] == h[k];
  }

  // ------------------------------------------------------------------
  // Every step keeps the invariant

  lemma NewTaskIsWaiting(r: Request, id: string, now: int)
    ensures var t := NewTask(r, id, now);
      |t.events| == 1 && LedgerOk(t, t.events) && LifeOk(t, t.events) && t.status == Queued && t.id == id
  {
    var t := NewTask(r, id, now);
    assert t.events == [Event(1, TaskEnqueued, Queued, now)];
    assert t.events[..0] == [];
  }

  lemma ObserveNew(h: map<string, seq<Event>>, before: map<string, Task>, id: string, t: Task)
    requires h.Keys == before.Keys
    requires id !in before && |t.events| == 1
    ensures Observe(h, before, before[id := t]) == h[id := t.events]
  {
    var after := before[id := t];
    var observed := Observe(h, before, after);
    forall k | k in after
      ensures observed[k] == h[id := t.events][k]
    {
      assert Touched(before, after, k) <==> k == id;
    }
  }

  // A new queued task joins the table, the queue and the file.
  ghost function Added(s: Sys, id: string, t: Task): Sys {
    var tasks' := s.lane.tasks[id := t];
    s.(lane := s.lane.(tasks := tasks', queue := s.lane.queue + [id]), saved := tasks',
       history := Observe(s.history, s.lane.tasks, tasks'))
  }

  lemma AddKeepsInv(s: Sys, id: string, t: Task)
    requires Inv(s) && id !in s.lane.tasks && id != ""
    requires t.id == id && t.status == Queued && |t.events| == 1 && LedgerOk(t, t.events) && LifeOk(t, t.events)
    ensures Inv(Added(s, id, t))
  {
    var s' := Added(s, id, t);
    assert FacetOk(id, FacetOf(s, id));
    QueueGrows(s.lane.queue, id);
    ObserveNew(s.history, s.lane.tasks, id, t);
    forall k: string
      ensures FacetOk(k, FacetOf(s', k))
    {
      assert FacetOk(k, FacetOf(s, k));
      AddedKeepsFacet(s, id, t, k);
    }
  }

  lemma AddedKeepsFacet(s: Sys, id: string, t: Task, k: string)
    requires id !in s.lane.tasks && s.history.Keys == s.lane.tasks.Keys && id != ""
    requires FacetOk(id, FacetOf(s, id)) && FacetOk(k, FacetOf(s, k))
    requires t.id == id && t.status == Queued && |t.events| == 1 && LedgerOk(t, t.events) && LifeOk(t, t.events)
    ensures FacetOk(k, FacetOf(Added(s, id, t), k))
  {
    AddedFacet(s, id, t, k);
    if k == id {
      WaitingFacetOk(id, t);
    }
  }

  lemma WaitingFacetOk(id: string, t: Task)
    requires t.id == id != "" && t.status == Queued && |t.events| == 1 && LedgerOk(t, t.events) && LifeOk(t, t.events)
    ensures FacetOk(id, Facet(Some(t), Some(t.events), true, false, Idle, 0))
  {
    assert t.events == t.events[..0] + [t.events[0]];
    ReplaySnoc(t.events[..0], t.events[0]);
  }

  lemma AddedFacet(s: Sys, id: string, t: Task, k: string)
    requires id !in s.lane.tasks && s.history.Keys == s.lane.tasks.Keys && |t.events| == 1
    requires FacetOk(id, FacetOf(s, id))
    ensures FacetOf(Added(s, id, t), k)
         == if k == id then Facet(Some(t), Some(t.events), true, false, Idle, 0) else FacetOf(s, k)
  {
    ObserveNew(s.history, s.lane.tasks, id, t);
    if k == id {
      assert (s.lane.queue + [id])[|s.lane.queue|] == id;
    }
  }

  lemma QueueGrows(q: seq<string>, id: string)
    requires NoDuplicates(q) && id !in q
    ensures NoDuplicates(q + [id]) && forall k :: k in q + [id] <==> k in q || k == id
  {
    assert (q + [id])[|q|] == id;
  }

  lemma EnqueueKeepsInv(c: Config, s: Sys, body: Json, id: string, now: int)
    requires Inv(s) && id !in s.lane.tasks && id != ""
    ensures Inv(Apply(c, s, Enqueue(body, id, now)))
  {
    EnqueueMeaning(c, s, body, id, now);
    if EnqueueReply(c, s.lane, body, id, now).Accepted? {
      var r := ReadRequest(c, body).value;
      NewTaskIsWaiting(r, id, now);
      AddKeepsInv(s, id, NewTask(r, id, now));
    }
  }

  // An enqueue adds the new task or changes nothing.
  lemma EnqueueMeaning(c: Config, s: Sys, body: Json, id: string, now: int)
    requires s.history.Keys == s.lane.tasks.Keys && id !in s.lane.tasks && id != ""
    ensures
      if EnqueueReply(c, s.lane, body, id, now).Accepted? then
        ReadRequest(c, body).Ok? &&
        Apply(c, s, Enqueue(body, id, now)) == Added(s, id, NewTask(ReadRequest(c, body).value, id, now))
      else Apply(c, s, Enqueue(body, id, now)) == s
  {
    ObserveNothing(s.history, s.lane.tasks);
  }

  // ------------------------------------------------------------------
  // Cancel

  lemma {:induction false} WithoutMembers(q: seq<string>, id: string)
    ensures forall k :: k in Without(q, id) <==> k in q && k != id
    ensures NoDuplicates(q) ==> NoDuplicates(Without(q, id))
  {
    if q != [] {
      WithoutMembers(q[1..], id);
      assert q == [q[0]] + q[1..];
      var rest := Without(q[1..], id);
      if NoDuplicates(q) {
        assert forall i, j :: 0 <= i < j < |q[1..]| ==> q[1..][i] == q[i + 1] && q[1..][j] == q[j + 1];
        assert q[0] !in q[1..];
        assert q[0] !in rest;
      }
    }
  }

  lemma CancelKeepsInv(c: Config, s: Sys, id: string, now: int)
    requires Inv(s)
    ensures Inv(Apply(c, s, Cancel(id, now)))
  {
    if CancelReply(s.lane, id, now).Refused? {
      ObserveNothing(s.history, s.lane.tasks);
    } else {
      assert FacetOk(id, FacetOf(s, id));
      match s.lane.tasks[id].status {
        case Queued => CancelQueuedKeepsInv(s, id, now);
        case Running => CancelRunningKeepsInv(s, id, now);
        case Cancelling =>
          var t := s.lane.tasks[id];
          MoveKeepsInv(s, id, t, TaskCancelIgnored, now, s.lane.queue, s.lane.flags, s.worker);
      }
    }
  }

  lemma CancelQueuedKeepsInv(s: Sys, id: string, now: int)
    requires Inv(s) && id in s.lane.tasks && s.lane.tasks[id].status.Queued?
    ensures Inv(Moved(s, id, CancelledTask(s.lane.tasks[id], now), Without(s.lane.queue, id), s.lane.flags, s.worker))
  {
    assert FacetOk(id, FacetOf(s, id));
    var t := s.lane.tasks[id].(status := Cancelled, finishedAtMs := now, error := "Cancelled by user");
    WithoutMembers(s.lane.queue, id);
    MoveKeepsInv(s, id, t, TaskCancelled, now, Without(s.lane.queue, id), s.lane.flags, s.worker);
  }

  lemma CancelRunningKeepsInv(s: Sys, id: string, now: int)
    requires Inv(s) && id in s.lane.tasks && s.lane.tasks[id].status.Running?
    ensures Inv(Moved(s, id, CancelledTask(s.lane.tasks[id], now), s.lane.queue, s.lane.flags[id := true], s.worker))
  {
    assert FacetOk(id, FacetOf(s, id));
    var t := s.lane.tasks[id].(status := Cancelling);
    MoveKeepsInv(s, id, t, TaskCancelling, now, s.lane.queue, s.lane.flags[id := true], s.worker);
  }

  // ------------------------------------------------------------------
  // The worker

  lemma StartKeepsInv(c: Config, s: Sys, now: int)
    requires Inv(s)
    ensures Inv(Apply(c, s, Start(now)))
  {
    if s.worker.Idle? && s.lane.queue != [] {
      var id := s.lane.queue[0];
      assert FacetOk(id, FacetOf(s, id));
      assert id in s.lane.queue;
      PopMembers(s.lane.queue);
      var t := s.lane.tasks[id].(status := Running, startedAtMs := now);
      MoveKeepsInv(s, id, t, TaskStarted, now, s.lane.queue[1..], s.lane.flags, Holding(id));
    }
  }

  lemma PopMembers(q: seq<string>)
    requires q != [] && NoDuplicates(q)
    ensures NoDuplicates(q[1..]) && forall k :: k in q[1..] <==> k in q && k != q[0]
  {
    var rest := q[1..];
    assert forall i :: 0 <= i < |rest| ==> rest[i] == q[i + 1];
    assert q == [q[0]] + rest;
  }

  lemma InvokeKeepsInv(c: Config, s: Sys)
    requires Inv(s)
    ensures Inv(Apply(c, s, Invoke))
  {
    var s' := Apply(c, s, Invoke);
    if s.worker.Holding? {
      assert FacetOk(s.worker.id, FacetOf(s, s.worker.id));
    }
    forall k: string
      ensures FacetOk(k, FacetOf(s', k))
    {
      assert FacetOk(k, FacetOf(s, k));
    }
  }

  lemma FinishKeepsInv(c: Config, s: Sys, outcome: Outcome, now: int)
    requires Inv(s)
    ensures Inv(Apply(c, s, Finish(outcome, now)))
  {
    if s.worker.Executing? {
      var id, timeoutMs := s.worker.copy.id, s.worker.copy.timeoutMs;
      assert FacetOk(id, FacetOf(s, id));
      FinishInHandKeepsInv(s, id, outcome, timeoutMs, now);
    }
  }

  lemma FinishInHandKeepsInv(s: Sys, id: string, outcome: Outcome, timeoutMs: int, now: int)
    requires Inv(s) && id in s.lane.tasks && WorkerOn(s.worker, id).Executing?
    ensures var lane := FinishLane(s.lane, id, outcome, timeoutMs, now);
      id in lane.tasks && Inv(Moved(s, id, lane.tasks[id], s.lane.queue, lane.flags, Idle))
  {
    assert FacetOk(id, FacetOf(s, id));
    var flags := FinishLane(s.lane, id, outcome, timeoutMs, now).flags;
    var t := FinishedRecord(s.lane.tasks[id], outcome, timeoutMs, GetOr(s.lane.flags, id, false), now);
    MoveKeepsInv(s, id, t, TaskFinished, now, s.lane.queue, flags, Idle);
  }

  // ------------------------------------------------------------------
  // Crash and load

  lemma {:induction false} PositiveSeqsAll(events: seq<Event>)
    requires forall i :: 0 <= i < |events| ==> events[i].seqNo > 0
    ensures PositiveSeqs(events) == events
  {
    if events != [] {
      PositiveSeqsAll(events[1..]);
    }
  }

  // Reading back a row the queue itself wrote changes nothing.
  lemma RowRoundTrip(t: Task, h: seq<Event>)
    requires LedgerOk(t, h)
    ensures ReadRow(t) == t
  {
    PositiveSeqsAll(t.events);
  }

  lemma {:induction false} RestoreAllAt(rows: seq<Task>, i: nat, now: int)
    requires i < |rows| && rows[i].id != ""
    requires forall i, j :: 0 <= i < j < |rows| ==> rows[i].id != rows[j].id
    ensures rows[i].id in RestoreAll(rows, now) && RestoreAll(rows, now)[rows[i].id] == Restore(rows[i], now)
  {
    var n := |rows| - 1;
    if i < n {
      RestoreAllAt(rows[..n], i, now);
      assert rows[i].id != rows[n].id;
    }
  }

  lemma {:induction false} RestoreAllKeys(rows: seq<Task>, id: string, now: int)
    requires id in RestoreAll(rows, now)
    ensures HasRow(rows, id)
  {
    var n := |rows| - 1;
    if id == rows[n].id {
    } else {
      RestoreAllKeys(rows[..n], id, now);
      var i :| 0 <= i < n && rows[..n][i].id == id;
      assert rows[i].id == id;
    }
  }

  lemma {:induction false} QueuedIdsFacts(rows: seq<Task>, tasks: map<string, Task>)
    requires "" !in tasks && forall i :: 0 <= i < |rows| ==> rows[i].id in tasks && tasks[rows[i].id] == rows[i]
    requires forall i, j :: 0 <= i < j < |rows| ==> rows[i].id != rows[j].id
    ensures forall id :: id in QueuedIds(rows) <==> HasRow(rows, id) && tasks[id].status.Queued?
    ensures NoDuplicates(QueuedIds(rows))
  {
    if rows != [] {
      var n := |rows| - 1;
      var before, last := rows[..n], rows[n];
      QueuedIdsFacts(before, tasks);
      assert !HasRow(before, last.id);
      forall id: string
        ensures HasRow(rows, id) <==> HasRow(before, id) || id == last.id
      {
        if HasRow(before, id) {
          var i :| 0 <= i < |before| && before[i].id == id;
          assert rows[i].id == id;
        }
        if id == last.id {
          assert rows[n].id == id;
        }
        if HasRow(rows, id) && id != last.id {
          var i :| 0 <= i < |rows| && rows[i].id == id;
          assert before[i].id == id;
        }
      }
      assert last.id !in QueuedIds(before);
    }
  }

  // The restored table, one id at a time.
  lemma RestoredAt(rows: seq<Task>, saved: map<string, Task>, now: int, id: string)
    requires Lists(rows, saved) && "" !in saved
    ensures id in RestoreAll(rows, now) <==> id in saved
    ensures id in saved ==> RestoreAll(rows, now)[id] == Restore(saved[id], now)
  {
    if id in saved {
      assert HasRow(rows, id);
      var i :| 0 <= i < |rows| && rows[i].id == id;
      RestoreAllAt(rows, i, now);
    }
    if id in RestoreAll(rows, now) {
      RestoreAllKeys(rows, id, now);
    }
  }

  // Loading restores each task by itself, whatever the order of the rows, and queues
  // exactly the queued ones, once each.
  lemma LoadIsPointwise(rows: seq<Task>, saved: map<string, Task>, now: int)
    requires Lists(rows, saved) && "" !in saved
    ensures LoadLane(rows, now).tasks == map id | id in saved :: Restore(saved[id], now)
    ensures forall id :: id in LoadLane(rows, now).queue <==> id in saved && saved[id].status.Queued?
    ensures NoDuplicates(LoadLane(rows, now).queue)
  {
    RestoredTable(rows, saved, now);
    LoadedQueue(rows, saved);
  }

  lemma RestoredTable(rows: seq<Task>, saved: map<string, Task>, now: int)
    requires Lists(rows, saved) && "" !in saved
    ensures RestoreAll(rows, now) == map id | id in saved :: Restore(saved[id], now)
  {
    forall id: string
      ensures id in RestoreAll(rows, now) <==> id in saved
      ensures id in saved ==> RestoreAll(rows, now)[id] == Restore(saved[id], now)
    {
      RestoredAt(rows, saved, now, id);
    }
    assert RestoreAll(rows, now).Keys == saved.Keys;
  }

  lemma LoadedQueue(rows: seq<Task>, saved: map<string, Task>)
    requires Lists(rows, saved) && "" !in saved
    ensures forall id :: id in QueuedIds(rows) <==> id in saved && saved[id].status.Queued?
    ensures NoDuplicates(QueuedIds(rows))
  {
    QueuedIdsFacts(rows, saved);
    forall id: string
      ensures HasRow(rows, id) <==> id in saved
    {
      if HasRow(rows, id) {
        var i :| 0 <= i < |rows| && rows[i].id == id;
      }
    }
  }

  function RestoredHistory(t: Task, h: seq<Event>, now: int): seq<Event> {
    if t.status.InHand() then h + [NextEvent(t, TaskRecovered, Cancelled, now)] else h
  }

  // What a restart does to everything the system knows about one id.
  function AfterCrash(f: Facet, now: int): Facet
    requires f.task.Some? ==> f.history.Some?
  {
    match f.task
    case None => f
    case Some(t) =>
      Facet(Some(Restore(t, now)), Some(RestoredHistory(t, f.history.value, now)),
            t.status.Queued?, false, Idle, f.execs)
  }

  lemma AppendLast(t: Task, kind: EventType, status: Status, now: int)
    ensures var t' := AppendEvent(t, kind, status, now); var e := NextEvent(t, kind, status, now);
      t'.events != [] && t'.events[|t'.events| - 1] == e && t'.nextEventSeq == e.seqNo + 1
  {
    assert |t.events + [NextEvent(t, kind, status, now)]| >= 1;
  }

  lemma RestoreMeaning(t: Task, h: seq<Event>, now: int)
    requires LedgerOk(t, h)
    ensures Restore(t, now)
         == if t.status.InHand() then AppendEvent(Interrupted(t, now), TaskRecovered, Cancelled, now) else t
    ensures NextEvent(Interrupted(t, now), TaskRecovered, Cancelled, now) == NextEvent(t, TaskRecovered, Cancelled, now)
  {
    RowRoundTrip(t, h);
  }

  // Ledger and life history survive the restart.
  lemma RestoreKeepsTask(t: Task, h: seq<Event>, now: int)
    requires LedgerOk(t, h) && LifeOk(t, h)
    ensures LedgerOk(Restore(t, now), RestoredHistory(t, h, now)) && LifeOk(Restore(t, now), RestoredHistory(t, h, now))
  {
    RestoreMeaning(t, h, now);
    if t.status.InHand() {
      assert CanAppend(h, NextEvent(t, TaskRecovered, Cancelled, now));
      AppendKeepsTask(Interrupted(t, now), h, TaskRecovered, Cancelled, now);
    }
  }

  lemma RestoreStatus(t: Task, now: int)
    ensures Restore(t, now).id == t.id
    ensures Restore(t, now).status == if t.status.InHand() then Cancelled else t.status
  {
  }

  lemma RestoreKeepsFacet(id: string, f: Facet, now: int)
    requires FacetOk(id, f)
    ensures FacetOk(id, AfterCrash(f, now))
  {
    if f.task.Some? {
      RestoreKeepsTask(f.task.value, f.history.value, now);
      RestoreStatus(f.task.value, now);
      SettledFacet(id, f, Restore(f.task.value, now), RestoredHistory(f.task.value, f.history.value, now));
    }
  }

  // A record that nobody holds any more.
  lemma SettledFacet(id: string, f: Facet, t: Task, h: seq<Event>)
    requires FacetOk(id, f) && f.task.Some?
    requires t.id == id && LedgerOk(t, h) && LifeOk(t, h)
    requires t.status == if f.task.value.status.InHand() then Cancelled else f.task.value.status
    requires h == f.history.value || EndsWith(h, TaskRecovered)
    ensures FacetOk(id, Facet(Some(t), Some(h), f.task.value.status.Queued?, false, Idle, f.execs))
  {
  }

  lemma RestoreEvolves(id: string, f: Facet, now: int)
    requires FacetOk(id, f) && f.task.Some?
    ensures TaskEvolves(f.task.value, f.history.value, Restore(f.task.value, now),
      RestoredHistory(f.task.value, f.history.value, now))
  {
    RestoreMeaning(f.task.value, f.history.value, now);
  }

  lemma NoEmptyId(s: Sys)
    requires Inv(s)
    ensures "" !in s.saved
  {
    assert FacetOk("", FacetOf(s, ""));
  }

  // In every reachable state the file reads back as the table.
  lemma CrashReads(c: Config, s: Sys, rows: seq<Task>, now: int)
    requires Inv(s) && Lists(rows, s.saved)
    ensures Apply(c, s, Crash(rows, now)) == Reloaded(s, Ok(rows), now)
  {
    forall i | 0 <= i < |rows|
      ensures TaskForm.Storable(rows[i])
    {
      SavedIsStorable(s, rows[i].id);
    }
    TaskForm.FileRoundTrip(c, rows, now);
  }

  lemma SavedIsStorable(s: Sys, id: string)
    requires Inv(s) && id in s.saved
    ensures s.saved[id].id == id && TaskForm.Storable(s.saved[id])
  {
    assert FacetOk(id, FacetOf(s, id));
    LedgerIsPositive(s.saved[id], s.history[id]);
  }

  lemma LedgerIsPositive(t: Task, h: seq<Event>)
    requires LedgerOk(t, h)
    ensures forall i :: 0 <= i < |t.events| ==> t.events[i].seqNo > 0
  {
  }

  lemma CrashKeepsInv(c: Config, s: Sys, rows: seq<Task>, now: int)
    requires Inv(s)
    ensures Inv(Apply(c, s, Crash(rows, now)))
  {
    if Lists(rows, s.saved) {
      CrashReads(c, s, rows, now);
      ReloadedShape(s, rows, now);
      forall k: string
        ensures FacetOk(k, FacetOf(Apply(c, s, Crash(rows, now)), k))
      {
        CrashKeepsFacet(c, s, rows, now, k);
      }
    }
  }

  lemma ReloadedShape(s: Sys, rows: seq<Task>, now: int)
    requires Inv(s) && Lists(rows, s.saved)
    ensures var s' := Reloaded(s, Ok(rows), now);
      NoDuplicates(s'.lane.queue) && s'.history.Keys == s'.lane.tasks.Keys && s'.saved == s'.lane.tasks
  {
    NoEmptyId(s);
    LoadIsPointwise(rows, s.saved, now);
    ObserveKeys(s.history, s.saved, LoadLane(rows, now).tasks);
  }

  lemma ObserveKeys(h: map<string, seq<Event>>, before: map<string, Task>, after: map<string, Task>)
    ensures Observe(h, before, after).Keys == after.Keys
  {
  }

  // The observer sees one new event exactly on the interrupted tasks.
  lemma RestoreIsObserved(h: map<string, seq<Event>>, saved: map<string, Task>, after: map<string, Task>, id: string,
                          now: int)
    requires id in saved && id in h && id in after && LedgerOk(saved[id], h[id]) && after[id] == Restore(saved[id], now)
    ensures Observe(h, saved, after)[id] == RestoredHistory(saved[id], h[id], now)
  {
    RestoreMeaning(saved[id], h[id], now);
    AppendLast(Interrupted(saved[id], now), TaskRecovered, Cancelled, now);
    assert h[id] + [] == h[id];
  }

  // A crash acts on every id by itself.
  lemma CrashIsPointwise(c: Config, s: Sys, rows: seq<Task>, now: int, id: string)
    requires Inv(s) && Lists(rows, s.saved)
    ensures FacetOk(id, FacetOf(s, id))
    ensures FacetOf(Apply(c, s, Crash(rows, now)), id) == AfterCrash(FacetOf(s, id), now)
  {
    assert FacetOk(id, FacetOf(s, id));
    NoEmptyId(s);
    LoadIsPointwise(rows, s.saved, now);
    CrashReads(c, s, rows, now);
    var lane := LoadLane(rows, now);
    if id in s.lane.tasks {
      RestoreIsObserved(s.history, s.saved, lane.tasks, id, now);
    }
  }

  lemma CrashKeepsFacet(c: Config, s: Sys, rows: seq<Task>, now: int, id: string)
    requires Inv(s) && Lists(rows, s.saved)
    ensures FacetOk(id, FacetOf(Apply(c, s, Crash(rows, now)), id))
  {
    CrashIsPointwise(c, s, rows, now, id);
    RestoreKeepsFacet(id, FacetOf(s, id), now);
  }

  lemma CrashEvolves(c: Config, s: Sys, rows: seq<Task>, now: int, id: string)
    requires Inv(s) && Lists(rows, s.saved) && id in s.lane.tasks && id in s.history
    ensures Evolves(s, Apply(c, s, Crash(rows, now)), id)
  {
    CrashIsPointwise(c, s, rows, now, id);
    RestoreEvolves(id, FacetOf(s, id), now);
    var f' := FacetOf(Apply(c, s, Crash(rows, now)), id);
    assert f'.task.Some? && f'.history.Some?;
  }

  // ------------------------------------------------------------------
  // Whole runs

  lemma StepKeepsInv(c: Config, s: Sys, step: Step)
    requires Inv(s)
    ensures Inv(Apply(c, s, step))
  {
    match step
    case Enqueue(body, id, now) => if id !in s.lane.tasks && id != "" { EnqueueKeepsInv(c, s, body, id, now); }
    case Cancel(id, now) => CancelKeepsInv(c, s, id, now);
    case Start(now) => StartKeepsInv(c, s, now);
    case Invoke => InvokeKeepsInv(c, s);
    case Finish(outcome, now) => FinishKeepsInv(c, s, outcome, now);
    case Crash(rows, now) => CrashKeepsInv(c, s, rows, now);
  }

  // Main result 1: the coupled invariant holds after every run.
  lemma {:induction false} EveryRunKeepsInv(c: Config, steps: seq<Step>)
    ensures Inv(Run(c, steps))
  {
    if steps == [] {
      forall id: string
        ensures FacetOk(id, FacetOf(Initial(), id))
      {
      }
    } else {
      EveryRunKeepsInv(c, steps[..|steps| - 1]);
      StepKeepsInv(c, Run(c, steps[..|steps| - 1]), steps[|steps| - 1]);
    }
  }

  // What one step may do to a task that is already in the table.
  ghost predicate Evolves(s: Sys, s': Sys, id: string)
    requires id in s.lane.tasks && id in s.history
  {
    && id in s'.lane.tasks && id in s'.history
    && TaskEvolves(s.lane.tasks[id], s.history[id], s'.lane.tasks[id], s'.history[id])
  }

  ghost predicate TaskEvolves(t: Task, h: seq<Event>, t': Task, h': seq<Event>) {
    && h <= h'
    && SameRequest(t, t')
    && (t.status.Terminal() ==> t' == t)
    && (t.status.Cancelling? ==> t'.status in {Cancelling, Cancelled})
  }

  lemma EvolvesTransitive(s0: Sys, s1: Sys, s2: Sys, id: string)
    requires id in s0.lane.tasks && id in s0.history && Evolves(s0, s1, id) && Evolves(s1, s2, id)
    ensures Evolves(s0, s2, id)
  {
  }

  lemma StepEvolves(c: Config, s: Sys, step: Step, id: string)
    requires Inv(s) && id in s.lane.tasks
    ensures Evolves(s, Apply(c, s, step), id)
  {
    assert FacetOk(id, FacetOf(s, id));
    match step
    case Enqueue(body, newId, now) => EnqueueEvolves(c, s, body, newId, now, id);
    case Cancel(cancelId, now) => CancelEvolves(c, s, cancelId, now, id);
    case Start(now) => StartEvolves(c, s, now, id);
    case Invoke =>
    case Finish(outcome, now) => FinishEvolves(c, s, outcome, now, id);
    case Crash(rows, now) =>
      if Lists(rows, s.saved) {
        CrashEvolves(c, s, rows, now, id);
      }
  }

  lemma EnqueueEvolves(c: Config, s: Sys, body: Json, newId: string, now: int, id: string)
    requires Inv(s) && id in s.lane.tasks && id in s.history
    ensures Evolves(s, Apply(c, s, Enqueue(body, newId, now)), id)
  {
    if newId !in s.lane.tasks && newId != "" {
      EnqueueMeaning(c, s, body, newId, now);
      if EnqueueReply(c, s.lane, body, newId, now).Accepted? {
        AddedEvolves(s, newId, NewTask(ReadRequest(c, body).value, newId, now), id);
      }
    }
  }

  lemma AddedEvolves(s: Sys, newId: string, t: Task, id: string)
    requires newId !in s.lane.tasks && id in s.lane.tasks && id in s.history
    ensures Evolves(s, Added(s, newId, t), id)
  {
    ObserveGrows(s.history, s.lane.tasks, s.lane.tasks[newId := t]);
  }

  lemma CancelEvolves(c: Config, s: Sys, cancelId: string, now: int, id: string)
    requires Inv(s) && id in s.lane.tasks && id in s.history
    ensures Evolves(s, Apply(c, s, Cancel(cancelId, now)), id)
  {
    if CancelReply(s.lane, cancelId, now).Accepted? {
      var lane := CancelLane(s.lane, cancelId, now);
      MoveEvolves(s, cancelId, CancelledTask(s.lane.tasks[cancelId], now), lane.queue, lane.flags, s.worker, id);
    } else {
      ObserveGrows(s.history, s.lane.tasks, s.lane.tasks);
    }
  }

  // Only a task that is not terminal is ever moved.
  lemma MoveEvolves(s: Sys, moved: string, t: Task, queue: seq<string>, flags: map<string, bool>, worker: Worker,
                    id: string)
    requires id in s.lane.tasks && id in s.history && moved in s.lane.tasks
    requires !s.lane.tasks[moved].status.Terminal()
    requires s.lane.tasks[moved].status.Cancelling? ==> t.status in {Cancelling, Cancelled}
    requires SameRequest(s.lane.tasks[moved], t)
    ensures Evolves(s, Moved(s, moved, t, queue, flags, worker), id)
  {
    ObserveGrows(s.history, s.lane.tasks, s.lane.tasks[moved := t]);
  }

  lemma StartEvolves(c: Config, s: Sys, now: int, id: string)
    requires Inv(s) && id in s.lane.tasks && id in s.history
    ensures Evolves(s, Apply(c, s, Start(now)), id)
  {
    if s.worker.Idle? && s.lane.queue != [] {
      var first := s.lane.queue[0];
      assert first in s.lane.queue;
      assert FacetOk(first, FacetOf(s, first));
      MoveEvolves(s, first, StartedTask(s.lane.tasks[first], now), s.lane.queue[1..], s.lane.flags, Holding(first), id);
    }
  }

  lemma FinishEvolves(c: Config, s: Sys, outcome: Outcome, now: int, id: string)
    requires Inv(s) && id in s.lane.tasks && id in s.history
    ensures Evolves(s, Apply(c, s, Finish(outcome, now)), id)
  {
    if s.worker.Executing? {
      var copy := s.worker.copy;
      assert FacetOk(copy.id, FacetOf(s, copy.id));
      var lane := FinishLane(s.lane, copy.id, outcome, copy.timeoutMs, now);
      MoveEvolves(s, copy.id, lane.tasks[copy.id], s.lane.queue, lane.flags, Idle, id);
    }
  }

  lemma ObserveGrows(h: map<string, seq<Event>>, before: map<string, Task>, after: map<string, Task>)
    ensures forall id :: id in h && id in after ==> h[id] <= Observe(h, before, after)[id]
  {
  }

  // Main result 2. No accepted task ever disappears, what was requested stays as it was,
  // its history only grows, a terminal record never changes again, and an
  // accepted cancel of a running task can only end as cancelled, across every continuation of the
  // run, crashes included.
  lemma {:induction false} TasksOnlyMoveForward(c: Config, steps: seq<Step>, more: seq<Step>, id: string)
    requires id in Run(c, steps).lane.tasks
    ensures id in Run(c, steps).history
    ensures Evolves(Run(c, steps), Run(c, steps + more), id)
  {
    TableHasHistory(c, steps, id);
    if more == [] {
      assert steps + more == steps;
    } else {
      var n := |more| - 1;
      var before := steps + more[..n];
      assert steps + more == before + [more[n]];
      TasksOnlyMoveForward(c, steps, more[..n], id);
      TaskMovesForward(c, before, more[n], id);
      EvolvesTransitive(Run(c, steps), Run(c, before), Run(c, steps + more), id);
    }
  }

  lemma TableHasHistory(c: Config, steps: seq<Step>, id: string)
    requires id in Run(c, steps).lane.tasks
    ensures id in Run(c, steps).history
  {
    EveryRunKeepsInv(c, steps);
    assert FacetOk(id, FacetOf(Run(c, steps), id));
  }

  lemma TaskMovesForward(c: Config, steps: seq<Step>, step: Step, id: string)
    requires id in Run(c, steps).lane.tasks && id in Run(c, steps).history
    ensures Evolves(Run(c, steps), Run(c, steps + [step]), id)
  {
    EveryRunKeepsInv(c, steps);
    StepEvolves(c, Run(c, steps), step, id);
    RunSnoc(c, steps, step);
  }

  // A policy the queue accepted: accepted again as it is, and used as it is by the engine.
  ghost predicate PoliciesOk(t: Task) {
    ContextStable(t.context) && ToolsStable(t.tools)
  }

  lemma AcceptedPoliciesOk(c: Config, body: Json, id: string, now: int)
    requires ReadRequest(c, body).Ok?
    ensures PoliciesOk(NewTask(ReadRequest(c, body).value, id, now))
  {
    RequestMeaning(c, body);
  }

  // After any run, the engine gets the policies of every task exactly as they were
  // accepted: neither a restart nor its own normaliser changes them.
  lemma {:induction false} PoliciesReachTheEngine(c: Config, steps: seq<Step>, id: string)
    requires id in Run(c, steps).lane.tasks
    ensures PoliciesOk(Run(c, steps).lane.tasks[id])
  {
    if steps != [] {
      var n := |steps| - 1;
      var before := Run(c, steps[..n]);
      EveryRunKeepsInv(c, steps[..n]);
      if id in before.lane.tasks {
        PoliciesReachTheEngine(c, steps[..n], id);
        StepEvolves(c, before, steps[n], id);
      } else {
        OnlyEnqueueAdds(c, before, steps[n], id);
      }
    }
  }

  lemma OnlyEnqueueAdds(c: Config, s: Sys, step: Step, id: string)
    requires Inv(s) && id !in s.lane.tasks && id in Apply(c, s, step).lane.tasks
    ensures PoliciesOk(Apply(c, s, step).lane.tasks[id])
  {
    if step.Enqueue? {
      AcceptedPoliciesOk(c, step.body, step.id, step.now);
    } else if step.Crash? {
      NoNewTask(c, s, step.rows, step.now, id);
    }
  }

  lemma NoNewTask(c: Config, s: Sys, rows: seq<Task>, now: int, id: string)
    requires Inv(s) && id !in s.lane.tasks
    ensures id !in Apply(c, s, Crash(rows, now)).lane.tasks
  {
    if Lists(rows, s.saved) {
      CrashIsPointwise(c, s, rows, now, id);
      assert FacetOf(Apply(c, s, Crash(rows, now)), id).task == None;
    }
  }

  // Main result 3. The executor is invoked at most once per task, over every run with
  // any number of crashes; never for a task still queued or cancelled while queued,
  // and exactly once for one that is done, failed or timed out, or whose run was finished
  // after a cancel.
  lemma AtMostOnce(c: Config, steps: seq<Step>, id: string)
    ensures GetOr(Run(c, steps).execs, id, 0) <= 1
    ensures id !in Run(c, steps).lane.tasks ==> GetOr(Run(c, steps).execs, id, 0) == 0
    ensures id in Run(c, steps).lane.tasks && Run(c, steps).lane.tasks[id].status == Queued ==>
      GetOr(Run(c, steps).execs, id, 0) == 0
    ensures id in Run(c, steps).lane.tasks && Run(c, steps).lane.tasks[id].status in {Done, Failed, Timeout} ==>
      GetOr(Run(c, steps).execs, id, 0) == 1
    ensures EndsWith(GetOr(Run(c, steps).history, id, []), TaskCancelled) ==> GetOr(Run(c, steps).execs, id, 0) == 0
    ensures EndsWith(GetOr(Run(c, steps).history, id, []), TaskFinished) ==> GetOr(Run(c, steps).execs, id, 0) == 1
  {
    EveryRunKeepsInv(c, steps);
    assert FacetOk(id, FacetOf(Run(c, steps), id));
  }

  // Main result 4. Queue, flags and worker always say the same as the task table.
  lemma QueueIsCoupled(c: Config, steps: seq<Step>)
    ensures var s := Run(c, steps);
      && NoDuplicates(s.lane.queue)
      && (forall id :: id in s.lane.queue <==> id in s.lane.tasks && s.lane.tasks[id].status.Queued?)
      && (forall id :: GetOr(s.lane.flags, id, false) <==> id in s.lane.tasks && s.lane.tasks[id].status.Cancelling?)
      && (forall a, b :: a in s.lane.tasks && b in s.lane.tasks ==>
            s.lane.tasks[a].status.InHand() && s.lane.tasks[b].status.InHand() ==> a == b)
      && s.saved == s.lane.tasks
  {
    EveryRunKeepsInv(c, steps);
    var s := Run(c, steps);
    forall id: string
      ensures FacetOk(id, FacetOf(s, id))
    {
    }
    forall id: string
      ensures id in s.lane.queue <==> id in s.lane.tasks && s.lane.tasks[id].status.Queued?
      ensures GetOr(s.lane.flags, id, false) <==> id in s.lane.tasks && s.lane.tasks[id].status.Cancelling?
    {
      assert FacetOk(id, FacetOf(s, id));
    }
    forall a, b | a in s.lane.tasks && b in s.lane.tasks && s.lane.tasks[a].status.InHand() &&
        s.lane.tasks[b].status.InHand()
      ensures a == b
    {
      assert FacetOk(a, FacetOf(s, a)) && FacetOk(b, FacetOf(s, b));
    }
  }

  // ------------------------------------------------------------------
  // Histories

  function Kinds(h: seq<Event>): seq<EventType> {
    if h == [] then [] else Kinds(h[..|h| - 1]) + [h[|h| - 1].kind]
  }

  function Ignored(n: nat): seq<EventType> {
    if n == 0 then [] else Ignored(n - 1) + [TaskCancelIgnored]
  }

  // The event types a history must show in each phase, written out; `n` counts the
  // repeated cancels that were ignored.
  ghost predicate Shape(p: Phase, kinds: seq<EventType>, n: nat) {
    match p
    case Fresh => kinds == []
    case Waiting => kinds == [TaskEnqueued]
    case Active => kinds == [TaskEnqueued, TaskStarted]
    case Stopping => kinds == [TaskEnqueued, TaskStarted, TaskCancelling] + Ignored(n)
    case Over(final) =>
      || (kinds == [TaskEnqueued, TaskCancelled] && final == Cancelled)
      || (kinds == [TaskEnqueued, TaskStarted] + [TaskRecovered] && final == Cancelled)
      || (kinds == [TaskEnqueued, TaskStarted] + [TaskFinished] && final in {Done, Failed, Timeout})
      || (kinds == [TaskEnqueued, TaskStarted, TaskCancelling] + Ignored(n) + [TaskFinished] && final == Cancelled)
      || (kinds == [TaskEnqueued, TaskStarted, TaskCancelling] + Ignored(n) + [TaskRecovered] && final == Cancelled)
  }

  lemma {:induction false} ReplayShape(h: seq<Event>) returns (n: nat)
    requires Replay(h).Some?
    ensures Shape(Replay(h).value, Kinds(h), n)
  {
    n := 0;
    if h != [] {
      var before := h[..|h| - 1];
      var m := ReplayShape(before);
      match Replay(h).value
      case Stopping => n := if Replay(before).value.Stopping? then m + 1 else 0;
      case _ => n := m;
    }
  }

  lemma {:induction false} ReplayStatus(h: seq<Event>)
    requires h != [] && Replay(h).Some?
    ensures h[|h| - 1].status == Shown(Replay(h).value)
  {
  }

  // Main result 5. The full history of every task, restarts included, has one of the
  // shapes above, its last event shows the task's status, and the stored ledger is
  // exactly its last 256 events, numbered consecutively up to nextEventSeq - 1.
  lemma EveryHistory(c: Config, steps: seq<Step>, id: string) returns (p: Phase, n: nat)
    requires id in Run(c, steps).lane.tasks
    ensures
      var s := Run(c, steps);
      var t := s.lane.tasks[id];
      id in s.history &&
      var h := s.history[id];
      && h != [] && Shape(p, Kinds(h), n) && t.status == Shown(p)
      && h[|h| - 1].status == t.status
      && t.events == (if |h| <= 256 then h else h[|h| - 256..])
      && (forall i :: 0 <= i < |h| ==> h[i].seqNo == i + 1)
      && t.nextEventSeq == h[|h| - 1].seqNo + 1
  {
    EveryRunKeepsInv(c, steps);
    var s := Run(c, steps);
    assert FacetOk(id, FacetOf(s, id));
    p := Replay(s.history[id]).value;
    n := ReplayShape(s.history[id]);
    ReplayStatus(s.history[id]);
  }

  // What the worker's last section records, in every reachable state: a cancel accepted
  // meanwhile wins over any outcome, and otherwise the outcome decides, measured against
  // the timeout the task was accepted with.
  lemma FinishRecordsOutcome(c: Config, steps: seq<Step>, outcome: Outcome, now: int)
    requires Run(c, steps).worker.Executing?
    ensures
      var s, s' := Run(c, steps), Run(c, steps + [Finish(outcome, now)]);
      var id := s.worker.copy.id;
      && id in s.lane.tasks && id in s'.lane.tasks
      && var t, t' := s.lane.tasks[id], s'.lane.tasks[id];
      && (t'.status == Cancelled <==> t.status == Cancelling)
      && (t'.status == Timeout <==> t.status == Running && outcome.Returned? && outcome.tookMs > t.timeoutMs)
      && (t'.status == Failed <==> t.status == Running && outcome.Threw?)
      && (t'.status == Done <==> t.status == Running && outcome.Returned? && outcome.tookMs <= t.timeoutMs)
      && (t'.error == "" <== t'.status == Done)
      && (outcome.Returned? ==> t'.result == outcome.result)
      && s'.worker == Idle
  {
    EveryRunKeepsInv(c, steps);
    var s := Run(c, steps);
    RunSnoc(c, steps, Finish(outcome, now));
    assert FacetOk(s.worker.copy.id, FacetOf(s, s.worker.copy.id));
    var t := s.lane.tasks[s.worker.copy.id];
    FinishedMeaning(t, outcome, t.timeoutMs, t.status == Cancelling, now);
  }

  lemma FinishedMeaning(t: Task, outcome: Outcome, timeoutMs: int, cancelled: bool, now: int)
    ensures var t' := FinishedTask(t, outcome, timeoutMs, cancelled, now);
      && (t'.status == Cancelled <==> cancelled)
      && (t'.status == Timeout <==> !cancelled && outcome.Returned? && outcome.tookMs > timeoutMs)
      && (t'.status == Failed <==> !cancelled && outcome.Threw?)
      && (t'.status == Done <==> !cancelled && outcome.Returned? && outcome.tookMs <= timeoutMs)
      && (t'.error == "" <== t'.status == Done)
      && (outcome.Returned? ==> t'.result == outcome.result)
  {
  }

  // ------------------------------------------------------------------
  // Pages of events

  ghost predicate AfterIs(h: seq<Event>, from: nat, afterSeq: nat) {
    from <= |h| && After(h[from..], afterSeq) == h[Min(Max(from, afterSeq), |h|)..]
  }

  lemma {:induction false} AfterIsSuffix(h: seq<Event>, from: nat, afterSeq: nat)
    requires from <= |h| && forall i :: 0 <= i < |h| ==> h[i].seqNo == i + 1
    ensures AfterIs(h, from, afterSeq)
  {
    if from < |h| {
      AfterIsSuffix(h[..|h| - 1], from, afterSeq);
      OneMoreAfter(h[..|h| - 1], h[|h| - 1], from, afterSeq);
      SplitLast(h);
    } else {
      assert h[from..] == [];
    }
  }

  lemma OneMoreAfter(h: seq<Event>, last: Event, from: nat, afterSeq: nat)
    requires AfterIs(h, from, afterSeq) && last.seqNo == |h| + 1
    ensures AfterIs(h + [last], from, afterSeq)
  {
    TailsSnoc(h, last, from, Min(Max(from, afterSeq), |h|));
    AfterSnoc(h[from..], last, afterSeq);
    if afterSeq > |h| {
      assert (h + [last])[|h| + 1..] == [] && h[|h|..] == [];
    }
  }

  lemma TailsSnoc(h: seq<Event>, last: Event, from: nat, k: nat)
    requires from <= |h| && k <= |h|
    ensures (h + [last])[from..] == h[from..] + [last] && (h + [last])[k..] == h[k..] + [last]
  {
  }

  lemma AfterSnoc(events: seq<Event>, last: Event, afterSeq: int)
    ensures After(events + [last], afterSeq) == After(events, afterSeq) + if last.seqNo > afterSeq then [last] else []
  {
    assert (events + [last])[..|events|] == events;
  }

  // Main result 6. A page is always the tail of the task's full history: it starts after
  // the latest of the client's position, the 256 kept events and the limit.
  lemma PageIsTail(c: Config, steps: seq<Step>, id: string, limit: int, afterSeq: nat)
    requires id in Run(c, steps).lane.tasks
    ensures id in Run(c, steps).history
    ensures EventPage(Run(c, steps).lane.tasks[id].events, limit, afterSeq)
      == HistoryTail(Run(c, steps).history[id], limit, afterSeq)
  {
    EveryRunKeepsInv(c, steps);
    var s := Run(c, steps);
    assert FacetOk(id, FacetOf(s, id));
    TailOfLedger(s.lane.tasks[id], s.history[id], limit, afterSeq);
  }

  // The history from the latest of the three positions on.
  function HistoryTail(h: seq<Event>, limit: int, afterSeq: nat): seq<Event> {
    var from := Max(Max(afterSeq, |h| - 256), if limit > 0 then |h| - limit else 0);
    h[Min(from, |h|)..]
  }

  lemma TailOfLedger(t: Task, h: seq<Event>, limit: int, afterSeq: nat)
    requires LedgerOk(t, h)
    ensures EventPage(t.events, limit, afterSeq) == HistoryTail(h, limit, afterSeq)
  {
    var kept := Max(0, |h| - MAX_EVENTS);
    assert t.events == h[kept..];
    AfterIsSuffix(h, kept, afterSeq);
  }

  // A client that has seen everything and asks later for what came after that gets all of
  // it exactly when no more than `limit`, and no more than 256, events were added.
  lemma PagingMisses(c: Config, steps: seq<Step>, more: seq<Step>, id: string, limit: int)
    requires id in Run(c, steps).lane.tasks
    ensures id in Run(c, steps).history && id in Run(c, steps + more).lane.tasks && id in Run(c, steps + more).history
    ensures
      var h, h' := Run(c, steps).history[id], Run(c, steps + more).history[id];
      h <= h' &&
      var added := h'[|h|..];
      EventPage(Run(c, steps + more).lane.tasks[id].events, limit, |h|) == added <==>
        (limit > 0 ==> |added| <= limit) && |added| <= 256
  {
    TasksOnlyMoveForward(c, steps, more, id);
    PageIsTail(c, steps + more, id, limit, |Run(c, steps).history[id]|);
    TailIsAll(Run(c, steps + more).history[id], limit, |Run(c, steps).history[id]|);
  }

  lemma TailIsAll(h: seq<Event>, limit: int, from: nat)
    requires from <= |h|
    ensures HistoryTail(h, limit, from) == h[from..]
      <==> (limit > 0 ==> |h| - from <= limit) && |h| - from <= 256
  {
    var start := Min(Max(Max(from, |h| - 256), if limit > 0 then |h| - limit else 0), |h|);
    assert HistoryTail(h, limit, from) == h[start..];
    assert |h[start..]| == |h| - start && |h[from..]| == |h| - from;
  }
}
