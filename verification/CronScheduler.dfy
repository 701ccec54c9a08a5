// The scheduler's locked sections on its job list and its set of running ids.
module CronScheduler {
  import opened Prelude
  import opened Json
  import MergePatch
  import opened CronJobs

  // jobs_ and inFlight_.
  datatype Cron = Cron(jobs: seq<Job>, inFlight: set<string>)

  // The position of a job, or the length.
  function FindJob(jobs: seq<Job>, id: string): (r: nat)
    ensures r <= |jobs|
    ensures r < |jobs| ==> jobs[r].id == id
    ensures forall i :: 0 <= i < r ==> jobs[i].id != id
  {
    FirstIndex(jobs, (job: Job) => job.id == id)
  }

  predicate HasJob(jobs: seq<Job>, id: string) {
    FindJob(jobs, id) < |jobs|
  }

  // ------------------------------------------------------------------
  // Editing

  datatype Reply = Done(job: Job) | Declined(reason: Result<()>) | NotFound | PatchNotObject

  function Reason(r: Result<Job>): Result<()>
    requires !r.Ok?
  {
    r.PropagateFailure()
  }

  // `id` is what newId produced.
  function AddReply(iso: IsoParser, payload: Json, id: string, now: nat): Reply {
    var parsed := ParseJobSpec(iso, payload, id, now, true);
    if parsed.Ok? then Done(parsed.value) else Declined(Reason(parsed))
  }

  function AfterAdd(iso: IsoParser, c: Cron, payload: Json, id: string, now: nat): Cron {
    match AddReply(iso, payload, id, now)
    case Done(job) => c.(jobs := c.jobs + [job])
    case _ => c
  }

  function UpdateReply(iso: IsoParser, c: Cron, id: string, patch: Json, now: nat): Reply {
    if !patch.Obj? then PatchNotObject
    else if !HasJob(c.jobs, id) then NotFound
    else
      var merged := MergePatch.Merge(JobToJson(c.jobs[FindJob(c.jobs, id)]), patch);
      var parsed := ParseJobSpec(iso, merged, id, now, true);
      if parsed.Ok? then Done(parsed.value) else Declined(Reason(parsed))
  }

  function AfterUpdate(iso: IsoParser, c: Cron, id: string, patch: Json, now: nat): Cron {
    match UpdateReply(iso, c, id, patch, now)
    case Done(job) => if HasJob(c.jobs, id) then c.(jobs := c.jobs[FindJob(c.jobs, id) := job]) else c
    case _ => c
  }

  function WithEnabled(iso: IsoParser, j: Job, enabled: bool, now: nat): Job {
    j.(enabled := enabled,
       nextRunAt := if enabled && j.nextRunAt <= 0 then FirstRun(iso, j.timing, now) else j.nextRunAt)
  }

  function AfterSetEnabled(iso: IsoParser, c: Cron, id: string, enabled: bool, now: nat): Cron {
    var k := FindJob(c.jobs, id);
    if k == |c.jobs| then c else c.(jobs := c.jobs[k := WithEnabled(iso, c.jobs[k], enabled, now)])
  }

  function WithoutId(jobs: seq<Job>, id: string): seq<Job> {
    if jobs == [] then []
    else WithoutId(jobs[..|jobs| - 1], id) + if jobs[|jobs| - 1].id == id then [] else [jobs[|jobs| - 1]]
  }

  function AfterRemove(c: Cron, id: string): Cron {
    if HasJob(c.jobs, id) then Cron(WithoutId(c.jobs, id), c.inFlight - {id}) else c
  }

  // ------------------------------------------------------------------
  // Running

  datatype RunReply = Started(job: Job) | NotDue | AlreadyRunning | NoSuchJob | BadMode

  // The section before the callback.
  function BeginReply(c: Cron, id: string, mode: string, startedAt: int): RunReply {
    if mode != "force" && mode != "due" then BadMode
    else if !HasJob(c.jobs, id) then NoSuchJob
    else if id in c.inFlight then AlreadyRunning
    else
      var job := c.jobs[FindJob(c.jobs, id)];
      if mode == "due" && job.nextRunAt > 0 && startedAt < job.nextRunAt then NotDue else Started(job)
  }

  function AfterBegin(c: Cron, id: string, mode: string, startedAt: int): Cron {
    if BeginReply(c, id, mode, startedAt).Started? then c.(inFlight := c.inFlight + {id}) else c
  }

  function RetryBackoffMs(consecutiveErrors: int): int {
    if consecutiveErrors <= 0 then 0
    else if consecutiveErrors == 1 then 30000
    else if consecutiveErrors == 2 then 60000
    else if consecutiveErrors == 3 then 300000
    else if consecutiveErrors == 4 then 900000
    else 3600000
  }

  // The job after a run; None when a finished one-shot is deleted.
  function AfterRun(iso: IsoParser, j: Job, success: bool, endedAt: nat): Option<Job> {
    var ran :=
      if success then j.(lastRunAt := endedAt, consecutiveErrors := 0, lastSuccessAt := endedAt)
      else j.(lastRunAt := endedAt, consecutiveErrors := j.consecutiveErrors + 1);
    if j.timing.kind == "at" then
      if j.deleteAfterRun then None else Some(ran.(enabled := false, nextRunAt := 0))
    else if !success then Some(ran.(nextRunAt := endedAt + RetryBackoffMs(ran.consecutiveErrors)))
    else if j.timing.kind == "every" then Some(ran.(nextRunAt := endedAt + IntervalOf(j.timing.everyMs)))
    else if j.timing.kind == "cron" then Some(ran.(nextRunAt := FirstRun(iso, j.timing, endedAt + 1000)))
    else Some(ran)
  }

  // The list once the job at `k` is replaced or erased.
  function Settled(jobs: seq<Job>, k: nat, after: Option<Job>): seq<Job>
    requires k < |jobs|
  {
    if after.Some? then jobs[k := after.value] else jobs[..k] + jobs[k + 1..]
  }

  // The section after the callback.
  function AfterEnd(iso: IsoParser, c: Cron, id: string, success: bool, endedAt: nat): Cron {
    var k := FindJob(c.jobs, id);
    Cron(if k == |c.jobs| then c.jobs
        else Settled(c.jobs, k, AfterRun(iso, c.jobs[k], success, endedAt)), c.inFlight - {id})
  }

  // ------------------------------------------------------------------
  // Save and load

  function Rows(jobs: seq<Job>): (r: seq<Json>)
    ensures |r| == |jobs| && forall i :: 0 <= i < |jobs| ==> r[i] == JobToJson(jobs[i])
  {
    seq(|jobs|, i requires 0 <= i < |jobs| => JobToJson(jobs[i]))
  }

  // One row of the file; rows that are no jobs are skipped, and a member of the wrong
  // type would end the whole load.
  function LoadRow(iso: IsoParser, row: Json, now: nat): Result<seq<Job>> {
    if !row.Obj? then Ok([])
    else
      var id :- StringOr(row, "id", "");
      if id == "" then Ok([])
      else
        match ParseJobSpec(iso, row, id, now, false)
        case Ok(job) => Ok([job])
        case Refused(_) => Ok([])
        case Thrown => Thrown
  }

  function LoadRows(iso: IsoParser, rows: seq<Json>, now: nat): Result<seq<Job>> {
    if rows == [] then Ok([])
    else
      var before :- LoadRows(iso, rows[..|rows| - 1], now);
      var more :- LoadRow(iso, rows[|rows| - 1], now);
      Ok(before + more)
  }

  // ------------------------------------------------------------------
  // The loop's choice

  predicate Due(c: Cron, j: Job, now: int) {
    j.enabled && j.nextRunAt > 0 && now >= j.nextRunAt && j.id !in c.inFlight
  }

  function DueIds(c: Cron, jobs: seq<Job>, now: int): seq<string> {
    if jobs == [] then []
    else DueIds(c, jobs[..|jobs| - 1], now) + if Due(c, jobs[|jobs| - 1], now) then [jobs[|jobs| - 1].id] else []
  }

  // ------------------------------------------------------------------
  // The object

  class Scheduler {
    const iso: IsoParser
    var jobs: seq<Job>
    var inFlight: set<string>
    var file: seq<Json>

    function View(): Cron
      reads this
    {
      Cron(jobs, inFlight)
    }

    // A new process, before init().
    constructor (iso: IsoParser)
      ensures this.iso == iso && View() == Cron([], {}) && file == []
    {
      this.iso := iso;
      jobs := [];
      inFlight := {};
      file := [];
    }

    // init() reads the file the last process left, and does not write it; an exception
    // stops it in the middle.
    method Init(stored: seq<Json>, now: nat) returns (ok: bool)
      modifies this
      ensures file == stored && inFlight == old(inFlight)
      ensures ok <==> LoadRows(iso, stored, now).Ok?
      ensures ok ==> jobs == LoadRows(iso, stored, now).value
    {
      file := stored;
      jobs := [];
      assert stored[..|stored|] == stored;
      for i := 0 to |stored|
        invariant LoadRows(iso, stored[..i], now) == Ok(jobs)
        invariant inFlight == old(inFlight) && file == stored
      {
        assert stored[..i + 1][..i] == stored[..i];
        var loaded := LoadRow(iso, stored[i], now);
        if !loaded.Ok? {
          if LoadRows(iso, stored, now).Ok? {
            LoadPrefix(iso, stored, i + 1, now);
          }
          return false;
        }
        jobs := jobs + loaded.value;
      }
      return true;
    }

    method AddJob(payload: Json, id: string, now: nat) returns (reply: Reply)
      modifies this
      ensures reply == AddReply(iso, payload, id, now)
      ensures View() == AfterAdd(iso, old(View()), payload, id, now)
      ensures file == if reply.Done? then Rows(jobs) else old(file)
    {
      var parsed := ParseJobSpec(iso, payload, id, now, true);
      if !parsed.Ok? {
        return Declined(Reason(parsed));
      }
      jobs := jobs + [parsed.value];
      file := Rows(jobs);
      return Done(parsed.value);
    }

    method UpdateJob(id: string, patch: Json, now: nat) returns (reply: Reply)
      modifies this
      ensures reply == UpdateReply(iso, old(View()), id, patch, now)
      ensures View() == AfterUpdate(iso, old(View()), id, patch, now)
      ensures file == if reply.Done? then Rows(jobs) else old(file)
    {
      if !patch.Obj? {
        return PatchNotObject;
      }
      var k := FindJob(jobs, id);
      if k == |jobs| {
        return NotFound;
      }
      var merged := MergePatch.Apply(JobToJson(jobs[k]), patch);
      var parsed := ParseJobSpec(iso, merged, id, now, true);
      if !parsed.Ok? {
        return Declined(Reason(parsed));
      }
      jobs := jobs[k := parsed.value];
      file := Rows(jobs);
      return Done(parsed.value);
    }

    method SetEnabled(id: string, enabled: bool, now: nat) returns (found: bool)
      modifies this
      ensures found == HasJob(old(jobs), id)
      ensures View() == AfterSetEnabled(iso, old(View()), id, enabled, now)
      ensures file == if found then Rows(jobs) else old(file)
    {
      var k := FindJob(jobs, id);
      if k == |jobs| {
        return false;
      }
      var job := jobs[k].(enabled := enabled);
      if enabled && job.nextRunAt <= 0 {
        job := job.(nextRunAt := FirstRun(iso, job.timing, now));
      }
      jobs := jobs[k := job];
      file := Rows(jobs);
      return true;
    }

    method RemoveJob(id: string) returns (removed: bool)
      modifies this
      ensures removed == HasJob(old(jobs), id)
      ensures View() == AfterRemove(old(View()), id)
      ensures file == if removed then Rows(jobs) else old(file)
    {
      WithoutIdSize(jobs, id);
      var left := WithoutId(jobs, id);
      if |left| != |jobs| {
        jobs := left;
        inFlight := inFlight - {id};
        file := Rows(jobs);
        return true;
      }
      return false;
    }

    method BeginRun(id: string, mode: string, startedAt: int) returns (reply: RunReply)
      modifies this
      ensures reply == BeginReply(old(View()), id, mode, startedAt)
      ensures View() == AfterBegin(old(View()), id, mode, startedAt)
      ensures file == old(file)
    {
      if mode != "force" && mode != "due" {
        return BadMode;
      }
      var k := FindJob(jobs, id);
      if k == |jobs| {
        return NoSuchJob;
      }
      if id in inFlight {
        return AlreadyRunning;
      }
      if mode == "due" && jobs[k].nextRunAt > 0 && startedAt < jobs[k].nextRunAt {
        return NotDue;
      }
      inFlight := inFlight + {id};
      return Started(jobs[k]);
    }

    method EndRun(id: string, success: bool, endedAt: nat)
      modifies this
      ensures View() == AfterEnd(iso, old(View()), id, success, endedAt)
      ensures file == if HasJob(old(jobs), id) then Rows(jobs) else old(file)
    {
      var k := FindJob(jobs, id);
      if k < |jobs| {
        var after := Finish(iso, jobs[k], success, endedAt);
        if after.Some? {
          jobs := jobs[k := after.value];
        } else {
          jobs := jobs[..k] + jobs[k + 1..];
        }
        assert jobs == Settled(old(jobs), k, after);
        file := Rows(jobs);
      }
      inFlight := inFlight - {id};
    }

    // The update of the job itself; None when it is to be erased.
    static method Finish(iso: IsoParser, j: Job, success: bool, endedAt: nat) returns (after: Option<Job>)
      ensures after == AfterRun(iso, j, success, endedAt)
    {
      var job := j.(lastRunAt := endedAt);
      if success {
        job := job.(consecutiveErrors := 0, lastSuccessAt := endedAt);
        if job.timing.kind == "at" {
          if job.deleteAfterRun {
            return None;
          }
          job := job.(enabled := false, nextRunAt := 0);
        } else if job.timing.kind == "every" {
          job := job.(nextRunAt := endedAt + IntervalOf(job.timing.everyMs));
        } else if job.timing.kind == "cron" {
          job := job.(nextRunAt := FirstRun(iso, job.timing, endedAt + 1000));
        }
      } else {
        job := job.(consecutiveErrors := job.consecutiveErrors + 1);
        if job.timing.kind == "at" {
          if job.deleteAfterRun {
            return None;
          }
          job := job.(enabled := false, nextRunAt := 0);
        } else {
          job := job.(nextRunAt := endedAt + RetryBackoffMs(job.consecutiveErrors));
        }
      }
      return Some(job);
    }

    // The locked part of one tick.
    method CollectDue(now: int) returns (dueIds: seq<string>)
      ensures dueIds == DueIds(View(), jobs, now)
    {
      dueIds := [];
      for i := 0 to |jobs|
        invariant dueIds == DueIds(View(), jobs[..i], now)
      {
        assert jobs[..i + 1][..i] == jobs[..i];
        var job := jobs[i];
        if !job.enabled {
          continue;
        }
        if job.nextRunAt <= 0 {
          continue;
        }
        if now < job.nextRunAt {
          continue;
        }
        if job.id in inFlight {
          continue;
        }
        dueIds := dueIds + [job.id];
      }
      assert jobs[..|jobs|] == jobs;
    }
  }

  lemma {:induction false} LoadPrefix(iso: IsoParser, rows: seq<Json>, n: nat, now: nat)
    requires n <= |rows| && LoadRows(iso, rows, now).Ok?
    ensures LoadRows(iso, rows[..n], now).Ok?
  {
    if n < |rows| {
      LoadPrefix(iso, rows[..|rows| - 1], n, now);
      assert rows[..|rows| - 1][..n] == rows[..n];
    } else {
      assert rows[..n] == rows;
    }
  }

  // Removing changes the length exactly when there was something to remove.
  lemma {:induction false} WithoutIdSize(jobs: seq<Job>, id: string)
    ensures |WithoutId(jobs, id)| <= |jobs|
    ensures |WithoutId(jobs, id)| != |jobs| <==> HasJob(jobs, id)
  {
    if jobs != [] {
      var n := |jobs| - 1;
      WithoutIdSize(jobs[..n], id);
      HasJobSnoc(jobs[..n], jobs[n], id);
      assert jobs == jobs[..n] + [jobs[n]];
    }
  }

  lemma HasJobSnoc(jobs: seq<Job>, j: Job, id: string)
    ensures HasJob(jobs + [j], id) <==> HasJob(jobs, id) || j.id == id
  {
    var all := jobs + [j];
    if HasJob(jobs, id) {
      assert all[FindJob(jobs, id)].id == id;
    }
    if j.id == id {
      assert all[|jobs|].id == id;
    }
    if HasJob(all, id) && j.id != id {
      assert jobs[FindJob(all, id)].id == id;
    }
  }
}
