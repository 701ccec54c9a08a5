// The scheduler over whole runs: API calls, the loop, manual runs and restarts, with any
// number of callbacks in progress outside the lock.
module CronRuns {
  import opened Prelude
  import opened Json
  import CronExpr
  import opened CronCalendar
  import opened CronJobs
  import opened CronScheduler
  import MergePatch

  // `file` holds the rows last written, `active` the job id of every callback in progress,
  // by runner. `saved`, the list those rows came from, and `used`, all ids ever handed
  // out, only observe.
  datatype Sys = Sys(cron: Cron, file: seq<Json>, saved: seq<Job>, active: map<nat, string>, used: set<string>)

  // The clock reads milliseconds since 1970.
  type Clock = n: nat | n > 0 witness 1

  // The loop starts a run with mode "force" on an id it collected at some earlier time;
  // a manual run names any id and either mode. Both are Begin steps.
  datatype Step =
    | Add(payload: Json, newId: string, now: Clock)
    | Update(id: string, patch: Json, now: Clock)
    | Enable(id: string, enabled: bool, now: Clock)
    | Remove(id: string)
    | Begin(runner: nat, id: string, mode: string, now: Clock)
    | End(runner: nat, success: bool, now: Clock)
    | Restart(now: Clock)

  function Initial(): Sys {
    Sys(Cron([], {}), [], [], map[], {})
  }

  // A step that is not possible in the state changes nothing.
  function Apply(iso: IsoParser, s: Sys, step: Step): Sys {
    match step
    case Add(payload, newId, now) =>
      // newId draws an id that was never used
      if newId in s.used || newId == "" then s
      else
        var done := AddReply(iso, payload, newId, now).Done?;
        Stored(s, AfterAdd(iso, s.cron, payload, newId, now), done).(used := s.used + {newId})
    case Update(id, patch, now) =>
      Stored(s, AfterUpdate(iso, s.cron, id, patch, now), UpdateReply(iso, s.cron, id, patch, now).Done?)
    case Enable(id, enabled, now) =>
      Stored(s, AfterSetEnabled(iso, s.cron, id, enabled, now), HasJob(s.cron.jobs, id))
    case Remove(id) =>
      Stored(s, AfterRemove(s.cron, id), HasJob(s.cron.jobs, id))
    case Begin(runner, id, mode, now) =>
      if runner in s.active || !BeginReply(s.cron, id, mode, now).Started? then s
      else s.(cron := AfterBegin(s.cron, id, mode, now), active := s.active[runner := id])
    case End(runner, success, now) =>
      if runner !in s.active then s
      else
        var id := s.active[runner];
        Stored(s, AfterEnd(iso, s.cron, id, success, now), HasJob(s.cron.jobs, id)).(active := s.active - {runner})
    case Restart(now) =>
      AfterRestart(s, LoadRows(iso, s.file, now))
  }

  // The new list and flags, written to the file or not.
  function Stored(s: Sys, cron: Cron, save: bool): Sys {
    if save then s.(cron := cron, file := Rows(cron.jobs), saved := cron.jobs) else s.(cron := cron)
  }

  // A new process with what it read; an exception while reading ends it.
  function AfterRestart(s: Sys, loaded: Result<seq<Job>>): Sys {
    if loaded.Ok? then s.(cron := Cron(loaded.value, {}), active := map[]) else s
  }

  function Run(iso: IsoParser, steps: seq<Step>): Sys {
    if steps == [] then Initial() else Apply(iso, Run(iso, steps[..|steps| - 1]), steps[|steps| - 1])
  }

  // ------------------------------------------------------------------
  // The invariant

  ghost predicate JobsOk(iso: IsoParser, jobs: seq<Job>) {
    forall i :: 0 <= i < |jobs| ==> JobOk(iso, jobs[i]) && NotStuck(jobs[i])
  }

  ghost predicate IdsDistinct(jobs: seq<Job>) {
    forall i, j :: 0 <= i < j < |jobs| ==> jobs[i].id != jobs[j].id
  }

  ghost predicate IdsIn(jobs: seq<Job>, used: set<string>) {
    forall i :: 0 <= i < |jobs| ==> jobs[i].id in used
  }

  ghost predicate ListOk(iso: IsoParser, jobs: seq<Job>, used: set<string>) {
    JobsOk(iso, jobs) && IdsDistinct(jobs) && IdsIn(jobs, used)
  }

  ghost predicate Active(active: map<nat, string>, id: string) {
    exists r :: r in active && active[r] == id
  }

  // inFlight_ is exactly the ids in progress that are still in the list, and no id is in
  // progress twice.
  ghost predicate RunsOk(jobs: seq<Job>, inFlight: set<string>, active: map<nat, string>, used: set<string>) {
    && (forall a, b :: a in active && b in active && a != b ==> active[a] != active[b])
    && (forall r :: r in active ==> active[r] in used)
    && (forall id :: id in inFlight <==> HasJob(jobs, id) && Active(active, id))
  }

  // Reading these rows gives back that list, next runs renewed where there was none.
  ghost predicate LoadsAs(iso: IsoParser, file: seq<Json>, jobs: seq<Job>) {
    forall now: nat :: LoadRows(iso, file, now) == Ok(AllRefreshed(iso, jobs, now))
  }

  // The list is the one last saved, or what a restart made of it.
  ghost predicate Backed(iso: IsoParser, saved: seq<Job>, jobs: seq<Job>) {
    jobs == saved || exists now: nat :: jobs == AllRefreshed(iso, saved, now)
  }

  ghost predicate Inv(iso: IsoParser, s: Sys) {
    ListOk(iso, s.cron.jobs, s.used) && ListOk(iso, s.saved, s.used) && LoadsAs(iso, s.file, s.saved)
    && RunsOk(s.cron.jobs, s.cron.inFlight, s.active, s.used)
    && Backed(iso, s.saved, s.cron.jobs)
  }

  // ------------------------------------------------------------------
  // The job list under each edit

  lemma HasJobAt(jobs: seq<Job>, k: nat)
    requires k < |jobs|
    ensures HasJob(jobs, jobs[k].id)
    ensures IdsDistinct(jobs) ==> FindJob(jobs, jobs[k].id) == k
  {
  }

  lemma ReplaceKeepsIds(jobs: seq<Job>, k: nat, j: Job, id: string)
    requires k < |jobs| && j.id == jobs[k].id
    ensures HasJob(jobs[k := j], id) <==> HasJob(jobs, id)
  {
    if HasJob(jobs, id) {
      assert jobs[k := j][FindJob(jobs, id)].id == id;
    }
    if HasJob(jobs[k := j], id) {
      assert jobs[FindJob(jobs[k := j], id)].id == id;
    }
  }

  lemma EraseRemovesId(jobs: seq<Job>, k: nat, id: string)
    requires k < |jobs| && IdsDistinct(jobs)
    ensures HasJob(jobs[..k] + jobs[k + 1..], id) <==> HasJob(jobs, id) && id != jobs[k].id
  {
    var rest := jobs[..k] + jobs[k + 1..];
    if HasJob(jobs, id) && id != jobs[k].id {
      var i := FindJob(jobs, id);
      assert rest[if i < k then i else i - 1].id == id;
    }
    if HasJob(rest, id) {
      var i := FindJob(rest, id);
      assert jobs[if i < k then i else i + 1].id == id;
    }
  }

  lemma {:induction false} WithoutIdFacts(jobs: seq<Job>, id: string, k: string)
    ensures HasJob(WithoutId(jobs, id), k) <==> HasJob(jobs, k) && k != id
  {
    if jobs != [] {
      var n := |jobs| - 1;
      var init, last := jobs[..n], jobs[n];
      assert jobs == init + [last];
      WithoutIdFacts(init, id, k);
      HasJobSnoc(init, last, k);
      HasJobSnoc(WithoutId(init, id), last, k);
      assert WithoutId(init, id) + [] == WithoutId(init, id);
    }
  }

  lemma {:induction false} WithoutIdOk(iso: IsoParser, jobs: seq<Job>, id: string, used: set<string>)
    requires ListOk(iso, jobs, used)
    ensures ListOk(iso, WithoutId(jobs, id), used)
  {
    if jobs != [] {
      var n := |jobs| - 1;
      var init, last := jobs[..n], jobs[n];
      assert jobs == init + [last];
      WithoutIdOk(iso, init, id, used);
      var left := WithoutId(init, id);
      forall i | 0 <= i < |left|
        ensures left[i].id != last.id
      {
        HasJobAt(left, i);
        WithoutIdFacts(init, id, left[i].id);
        assert init[FindJob(init, left[i].id)].id == left[i].id;
      }
    }
  }

  lemma ReplaceOk(iso: IsoParser, jobs: seq<Job>, k: nat, j: Job, used: set<string>)
    requires ListOk(iso, jobs, used) && k < |jobs|
    requires j.id == jobs[k].id && JobOk(iso, j) && NotStuck(j)
    ensures ListOk(iso, jobs[k := j], used)
  {
  }

  lemma EraseOk(iso: IsoParser, jobs: seq<Job>, k: nat, used: set<string>)
    requires ListOk(iso, jobs, used) && k < |jobs|
    ensures ListOk(iso, jobs[..k] + jobs[k + 1..], used)
  {
    EraseKeepsDistinct(jobs, k);
    ErasedAt(jobs, k);
  }

  lemma ErasedAt(jobs: seq<Job>, k: nat)
    requires k < |jobs|
    ensures var rest := jobs[..k] + jobs[k + 1..];
      forall i :: 0 <= i < |rest| ==> rest[i] == jobs[if i < k then i else i + 1]
  {
  }

  lemma EraseKeepsDistinct(jobs: seq<Job>, k: nat)
    requires k < |jobs| && IdsDistinct(jobs)
    ensures IdsDistinct(jobs[..k] + jobs[k + 1..])
  {
    ErasedAt(jobs, k);
  }

  // ------------------------------------------------------------------
  // Steps

  // A list that was stored, with the run bookkeeping that goes with it.
  lemma StoredKeepsInv(iso: IsoParser, s: Sys, cron: Cron, active: map<nat, string>, used: set<string>)
    requires ListOk(iso, cron.jobs, used) && RunsOk(cron.jobs, cron.inFlight, active, used)
    ensures Inv(iso, Stored(s, cron, true).(active := active, used := used))
  {
    SavedLoads(iso, cron.jobs);
  }

  lemma AddKeepsInv(iso: IsoParser, s: Sys, payload: Json, newId: string, now: Clock)
    requires Inv(iso, s)
    ensures Inv(iso, Apply(iso, s, Add(payload, newId, now)))
  {
    if newId !in s.used && newId != "" && AddReply(iso, payload, newId, now).Done? {
      StrictMeetsContract(iso, payload, newId, now);
      var job := AddReply(iso, payload, newId, now).job;
      AddedOk(iso, s.cron.jobs, job, s.used);
      AddedRuns(s.cron.jobs, s.cron.inFlight, s.active, s.used, job);
      StoredKeepsInv(iso, s, s.cron.(jobs := s.cron.jobs + [job]), s.active, s.used + {newId});
    }
  }

  lemma AddedOk(iso: IsoParser, jobs: seq<Job>, job: Job, used: set<string>)
    requires ListOk(iso, jobs, used) && JobOk(iso, job) && NotStuck(job) && job.id !in used
    ensures ListOk(iso, jobs + [job], used + {job.id})
  {
  }

  lemma AddedRuns(jobs: seq<Job>, inFlight: set<string>, active: map<nat, string>, used: set<string>, job: Job)
    requires RunsOk(jobs, inFlight, active, used) && job.id !in used
    ensures RunsOk(jobs + [job], inFlight, active, used + {job.id})
  {
    forall id: string
      ensures HasJob(jobs + [job], id) <==> HasJob(jobs, id) || id == job.id
    {
      HasJobSnoc(jobs, job, id);
    }
    assert !Active(active, job.id);
  }

  // A new list with the same ids leaves the run bookkeeping right.
  lemma SameIdsKeepRuns(jobs: seq<Job>, jobs': seq<Job>, inFlight: set<string>, active: map<nat, string>,
                        used: set<string>)
    requires RunsOk(jobs, inFlight, active, used)
    requires forall id :: HasJob(jobs', id) <==> HasJob(jobs, id)
    ensures RunsOk(jobs', inFlight, active, used)
  {
  }

  lemma ReplaceKeepsInv(iso: IsoParser, s: Sys, k: nat, j: Job)
    requires Inv(iso, s) && k < |s.cron.jobs|
    requires j.id == s.cron.jobs[k].id && JobOk(iso, j) && NotStuck(j)
    ensures Inv(iso, Stored(s, s.cron.(jobs := s.cron.jobs[k := j]), true))
  {
    var jobs := s.cron.jobs[k := j];
    ReplaceOk(iso, s.cron.jobs, k, j, s.used);
    forall id: string
      ensures HasJob(jobs, id) <==> HasJob(s.cron.jobs, id)
    {
      ReplaceKeepsIds(s.cron.jobs, k, j, id);
    }
    SameIdsKeepRuns(s.cron.jobs, jobs, s.cron.inFlight, s.active, s.used);
    StoredKeepsInv(iso, s, s.cron.(jobs := jobs), s.active, s.used);
  }

  lemma UpdateKeepsInv(iso: IsoParser, s: Sys, id: string, patch: Json, now: Clock)
    requires Inv(iso, s)
    ensures Inv(iso, Apply(iso, s, Update(id, patch, now)))
  {
    var reply := UpdateReply(iso, s.cron, id, patch, now);
    if reply.Done? {
      var k := FindJob(s.cron.jobs, id);
      var merged := MergePatch.Merge(JobToJson(s.cron.jobs[k]), patch);
      assert HasJob(s.cron.jobs, id) && JobOk(iso, s.cron.jobs[k]);
      StrictMeetsContract(iso, merged, id, now);
      ReplaceKeepsInv(iso, s, k, reply.job);
    }
  }

  // Switching a job on gives it a run; switching it off leaves it as it is.
  lemma EnabledIsOk(iso: IsoParser, j: Job, enabled: bool, now: nat)
    requires JobOk(iso, j) && NotStuck(j)
    ensures JobOk(iso, WithEnabled(iso, j, enabled, now)) && NotStuck(WithEnabled(iso, j, enabled, now))
  {
    FirstRunIsPositive(iso, j.timing, now);
  }

  // A run leaves the job scheduled, or a disabled one-shot.
  lemma AfterRunIsOk(iso: IsoParser, j: Job, success: bool, endedAt: Clock)
    requires JobOk(iso, j) && NotStuck(j)
    ensures
      var after := AfterRun(iso, j, success, endedAt);
      after.Some? ==> JobOk(iso, after.value) && NotStuck(after.value) && after.value.id == j.id
  {
    if j.timing.kind == "cron" {
      FirstRunIsPositive(iso, j.timing, endedAt + 1000);
    }
  }

  lemma EnableKeepsInv(iso: IsoParser, s: Sys, id: string, enabled: bool, now: Clock)
    requires Inv(iso, s)
    ensures Inv(iso, Apply(iso, s, Enable(id, enabled, now)))
  {
    var k := FindJob(s.cron.jobs, id);
    if k < |s.cron.jobs| {
      EnabledIsOk(iso, s.cron.jobs[k], enabled, now);
      ReplaceKeepsInv(iso, s, k, WithEnabled(iso, s.cron.jobs[k], enabled, now));
    }
  }

  lemma RemoveKeepsInv(iso: IsoParser, s: Sys, id: string)
    requires Inv(iso, s)
    ensures Inv(iso, Apply(iso, s, Remove(id)))
  {
    if HasJob(s.cron.jobs, id) {
      WithoutIdOk(iso, s.cron.jobs, id, s.used);
      RemovedRuns(s.cron.jobs, s.cron.inFlight, s.active, s.used, id);
      StoredKeepsInv(iso, s, Cron(WithoutId(s.cron.jobs, id), s.cron.inFlight - {id}), s.active, s.used);
    }
  }

  lemma RemovedRuns(jobs: seq<Job>, inFlight: set<string>, active: map<nat, string>, used: set<string>, id: string)
    requires RunsOk(jobs, inFlight, active, used)
    ensures RunsOk(WithoutId(jobs, id), inFlight - {id}, active, used)
  {
    forall k: string
      ensures HasJob(WithoutId(jobs, id), k) <==> HasJob(jobs, k) && k != id
    {
      WithoutIdFacts(jobs, id, k);
    }
  }

  lemma BeginKeepsInv(iso: IsoParser, s: Sys, runner: nat, id: string, mode: string, now: Clock)
    requires Inv(iso, s)
    ensures Inv(iso, Apply(iso, s, Begin(runner, id, mode, now)))
  {
    if runner !in s.active && BeginReply(s.cron, id, mode, now).Started? {
      var active := s.active[runner := id];
      // nobody runs this id: it is listed, and not in flight
      assert !Active(s.active, id);
      assert s.cron.jobs[FindJob(s.cron.jobs, id)].id in s.used;
      forall k: string
        ensures Active(active, k) <==> Active(s.active, k) || k == id
      {
        if k == id {
          assert active[runner] == k;
        } else if Active(s.active, k) {
          var r :| r in s.active && s.active[r] == k;
          assert active[r] == k;
        }
      }
    }
  }

  // When a callback ends, exactly its own id stops being active.
  lemma EndedIsInactive(active: map<nat, string>, runner: nat, id: string)
    requires forall a, b :: a in active && b in active && a != b ==> active[a] != active[b]
    requires runner in active
    ensures Active(active - {runner}, id) <==> Active(active, id) && id != active[runner]
  {
    var left := active - {runner};
    if Active(active, id) && id != active[runner] {
      var r :| r in active && active[r] == id;
      assert left[r] == id;
    }
  }

  lemma EndedRuns(jobs: seq<Job>, jobs': seq<Job>, inFlight: set<string>, active: map<nat, string>,
                  used: set<string>, runner: nat)
    requires RunsOk(jobs, inFlight, active, used) && runner in active
    requires forall k :: k != active[runner] ==> (HasJob(jobs', k) <==> HasJob(jobs, k))
    ensures RunsOk(jobs', inFlight - {active[runner]}, active - {runner}, used)
  {
    forall k: string
      ensures Active(active - {runner}, k) <==> Active(active, k) && k != active[runner]
    {
      EndedIsInactive(active, runner, k);
    }
  }

  lemma EndKeepsInv(iso: IsoParser, s: Sys, runner: nat, success: bool, now: Clock)
    requires Inv(iso, s)
    ensures Inv(iso, Apply(iso, s, End(runner, success, now)))
  {
    if runner in s.active {
      var id := s.active[runner];
      var cron := AfterEnd(iso, s.cron, id, success, now);
      EndKeepsList(iso, s, id, success, now);
      EndedRuns(s.cron.jobs, cron.jobs, s.cron.inFlight, s.active, s.used, runner);
      if HasJob(s.cron.jobs, id) {
        StoredKeepsInv(iso, s, cron, s.active - {runner}, s.used);
      }
    }
  }

  // The list after a run: every other id stays, and its own only may go.
  lemma EndKeepsList(iso: IsoParser, s: Sys, id: string, success: bool, now: Clock)
    requires Inv(iso, s)
    ensures ListOk(iso, AfterEnd(iso, s.cron, id, success, now).jobs, s.used)
    ensures forall k :: k != id ==>
      (HasJob(AfterEnd(iso, s.cron, id, success, now).jobs, k) <==> HasJob(s.cron.jobs, k))
  {
    var jobs := s.cron.jobs;
    var k := FindJob(jobs, id);
    if k < |jobs| {
      AfterRunIsOk(iso, jobs[k], success, now);
      SettledKeepsList(iso, jobs, k, AfterRun(iso, jobs[k], success, now), s.used);
    }
  }

  lemma SettledKeepsList(iso: IsoParser, jobs: seq<Job>, k: nat, after: Option<Job>, used: set<string>)
    requires ListOk(iso, jobs, used) && k < |jobs|
    requires after.Some? ==> JobOk(iso, after.value) && NotStuck(after.value) && after.value.id == jobs[k].id
    ensures ListOk(iso, Settled(jobs, k, after), used)
    ensures forall id :: id != jobs[k].id ==> (HasJob(Settled(jobs, k, after), id) <==> HasJob(jobs, id))
  {
    if after.Some? {
      ReplaceOk(iso, jobs, k, after.value, used);
    } else {
      EraseOk(iso, jobs, k, used);
    }
    forall id | id != jobs[k].id
      ensures HasJob(Settled(jobs, k, after), id) <==> HasJob(jobs, id)
    {
      if after.Some? {
        ReplaceKeepsIds(jobs, k, after.value, id);
      } else {
        EraseRemovesId(jobs, k, id);
      }
    }
  }

  // ------------------------------------------------------------------
  // Restart

  function AllRefreshed(iso: IsoParser, jobs: seq<Job>, now: nat): (r: seq<Job>)
    ensures |r| == |jobs| && forall i :: 0 <= i < |jobs| ==> r[i] == Refreshed(iso, jobs[i], now)
  {
    seq(|jobs|, i requires 0 <= i < |jobs| => Refreshed(iso, jobs[i], now))
  }

  ghost predicate LoadsBack(iso: IsoParser, jobs: seq<Job>, now: nat) {
    LoadRows(iso, Rows(jobs), now) == Ok(AllRefreshed(iso, jobs, now))
  }

  lemma {:induction false} EveryListLoads(iso: IsoParser, jobs: seq<Job>, now: nat)
    requires JobsOk(iso, jobs)
    ensures LoadsBack(iso, jobs, now)
  {
    if jobs == [] {
      NoJobsLoad(iso, now);
    } else {
      var n := |jobs| - 1;
      EveryListLoads(iso, jobs[..n], now);
      SaveOneMore(iso, jobs[..n], jobs[n], now);
      LastSaved(iso, jobs, now);
    }
  }

  lemma LastSaved(iso: IsoParser, jobs: seq<Job>, now: nat)
    requires jobs != [] && LoadsBack(iso, jobs[..|jobs| - 1] + [jobs[|jobs| - 1]], now)
    ensures LoadsBack(iso, jobs, now)
  {
    SplitLast(jobs);
  }

  lemma NoJobsLoad(iso: IsoParser, now: nat)
    ensures LoadsBack(iso, [], now)
  {
  }

  lemma SaveOneMore(iso: IsoParser, init: seq<Job>, last: Job, now: nat)
    requires JobOk(iso, last) && LoadsBack(iso, init, now)
    ensures LoadsBack(iso, init + [last], now)
  {
    RowLoads(iso, last, now);
    LoadsOneMore(iso, Rows(init), JobToJson(last), init, last, now);
    RowsSnoc(init, last);
  }

  // Main result 1. Loading what was saved gives back every job, in order and with all its
  // fields; only a next run that is not positive is computed anew.
  lemma SaveThenLoad(iso: IsoParser, jobs: seq<Job>, now: nat)
    requires JobsOk(iso, jobs)
    ensures LoadRows(iso, Rows(jobs), now) == Ok(AllRefreshed(iso, jobs, now))
  {
    EveryListLoads(iso, jobs, now);
  }

  lemma RowsSnoc(init: seq<Job>, last: Job)
    ensures Rows(init + [last]) == Rows(init) + [JobToJson(last)]
  {
  }

  lemma LoadsOneMore(iso: IsoParser, rows: seq<Json>, row: Json, init: seq<Job>, last: Job, now: nat)
    requires LoadRows(iso, rows, now) == Ok(AllRefreshed(iso, init, now))
    requires LoadRow(iso, row, now) == Ok([Refreshed(iso, last, now)])
    ensures LoadRows(iso, rows + [row], now) == Ok(AllRefreshed(iso, init + [last], now))
  {
    LoadSnoc(iso, rows, row, now, AllRefreshed(iso, init, now), [Refreshed(iso, last, now)]);
    assert AllRefreshed(iso, init + [last], now) == AllRefreshed(iso, init, now) + [Refreshed(iso, last, now)];
  }

  lemma LoadSnoc(iso: IsoParser, rows: seq<Json>, row: Json, now: nat, before: seq<Job>, more: seq<Job>)
    requires LoadRows(iso, rows, now) == Ok(before) && LoadRow(iso, row, now) == Ok(more)
    ensures LoadRows(iso, rows + [row], now) == Ok(before + more)
  {
    assert (rows + [row])[..|rows|] == rows;
  }

  lemma SavedLoads(iso: IsoParser, jobs: seq<Job>)
    requires JobsOk(iso, jobs)
    ensures LoadsAs(iso, Rows(jobs), jobs)
  {
    forall now: nat
      ensures LoadRows(iso, Rows(jobs), now) == Ok(AllRefreshed(iso, jobs, now))
    {
      SaveThenLoad(iso, jobs, now);
    }
  }

  // With a next run in every job the list comes back exactly as it was.
  lemma SaveThenLoadIsIdentity(iso: IsoParser, jobs: seq<Job>, now: nat)
    requires JobsOk(iso, jobs)
    requires forall i :: 0 <= i < |jobs| ==> jobs[i].nextRunAt > 0
    ensures LoadRows(iso, Rows(jobs), now) == Ok(jobs)
  {
    SaveThenLoad(iso, jobs, now);
    AllRefreshedIsIdentity(iso, jobs, now);
  }

  lemma AllRefreshedIsIdentity(iso: IsoParser, jobs: seq<Job>, now: nat)
    requires forall i :: 0 <= i < |jobs| ==> jobs[i].nextRunAt > 0
    ensures AllRefreshed(iso, jobs, now) == jobs
  {
    var refreshed := AllRefreshed(iso, jobs, now);
    forall i | 0 <= i < |jobs|
      ensures refreshed[i] == jobs[i]
    {
    }
  }

  lemma RowLoads(iso: IsoParser, j: Job, now: nat)
    requires JobOk(iso, j)
    ensures LoadRow(iso, JobToJson(j), now) == Ok([Refreshed(iso, j, now)])
  {
    ReadBackNames(j);
    JobRoundTrip(iso, j, now, false);
  }

  lemma RefreshedIsOk(iso: IsoParser, j: Job, now: nat)
    requires JobOk(iso, j)
    ensures JobOk(iso, Refreshed(iso, j, now)) && Refreshed(iso, j, now).nextRunAt > 0 &&
      Refreshed(iso, j, now).id == j.id
  {
    FirstRunIsPositive(iso, j.timing, now);
  }

  lemma RestartKeepsInv(iso: IsoParser, s: Sys, now: Clock)
    requires Inv(iso, s)
    ensures Inv(iso, Apply(iso, s, Restart(now)))
  {
    var loaded := LoadRows(iso, s.file, now);
    assert loaded == Ok(AllRefreshed(iso, s.saved, now));
    RefreshedListOk(iso, s.saved, now, s.used);
    NothingRuns(loaded.value, s.used);
  }

  lemma NothingRuns(jobs: seq<Job>, used: set<string>)
    ensures RunsOk(jobs, {}, map[], used)
  {
  }

  lemma RefreshedListOk(iso: IsoParser, jobs: seq<Job>, now: nat, used: set<string>)
    requires ListOk(iso, jobs, used)
    ensures ListOk(iso, AllRefreshed(iso, jobs, now), used)
  {
    var refreshed := AllRefreshed(iso, jobs, now);
    forall i | 0 <= i < |refreshed|
      ensures JobOk(iso, refreshed[i]) && NotStuck(refreshed[i]) && refreshed[i].id == jobs[i].id
    {
      RefreshedIsOk(iso, jobs[i], now);
    }
  }

  // Renewing a missing next run does not depend on the time: only one-shots lack one.
  lemma RefreshedAnytime(iso: IsoParser, j: Job, now: nat, later: nat)
    requires JobOk(iso, j) && NotStuck(j)
    ensures Refreshed(iso, Refreshed(iso, j, now), later) == Refreshed(iso, j, later)
  {
    RefreshedIsOk(iso, j, now);
  }

  lemma AllRefreshedAnytime(iso: IsoParser, jobs: seq<Job>, now: nat, later: nat)
    requires JobsOk(iso, jobs)
    ensures AllRefreshed(iso, AllRefreshed(iso, jobs, now), later) == AllRefreshed(iso, jobs, later)
  {
    forall i | 0 <= i < |jobs|
      ensures Refreshed(iso, Refreshed(iso, jobs[i], now), later) == Refreshed(iso, jobs[i], later)
    {
      RefreshedAnytime(iso, jobs[i], now, later);
    }
  }

  // ------------------------------------------------------------------
  // Whole runs

  lemma StepKeepsInv(iso: IsoParser, s: Sys, step: Step)
    requires Inv(iso, s)
    ensures Inv(iso, Apply(iso, s, step))
  {
    match step
    case Add(payload, newId, now) => AddKeepsInv(iso, s, payload, newId, now);
    case Update(id, patch, now) => UpdateKeepsInv(iso, s, id, patch, now);
    case Enable(id, enabled, now) => EnableKeepsInv(iso, s, id, enabled, now);
    case Remove(id) => RemoveKeepsInv(iso, s, id);
    case Begin(runner, id, mode, now) => BeginKeepsInv(iso, s, runner, id, mode, now);
    case End(runner, success, now) => EndKeepsInv(iso, s, runner, success, now);
    case Restart(now) => RestartKeepsInv(iso, s, now);
  }

  lemma {:induction false} EveryRunKeepsInv(iso: IsoParser, steps: seq<Step>)
    ensures Inv(iso, Run(iso, steps))
  {
    if steps != [] {
      EveryRunKeepsInv(iso, steps[..|steps| - 1]);
      StepKeepsInv(iso, Run(iso, steps[..|steps| - 1]), steps[|steps| - 1]);
    }
  }

  // Main result 2. At most one callback is in progress per job id, and inFlight_ is
  // exactly the ids in progress that are still listed, although a removal clears the flag
  // of a callback that goes on running.
  lemma RunsAreExclusive(iso: IsoParser, steps: seq<Step>)
    ensures
      var s := Run(iso, steps);
      && (forall a, b :: a in s.active && b in s.active && s.active[a] == s.active[b] ==> a == b)
      && (forall id :: id in s.cron.inFlight <==> HasJob(s.cron.jobs, id) && Active(s.active, id))
  {
    EveryRunKeepsInv(iso, steps);
  }

  // Main result 3. In every reachable state every job meets the contract, ids are unique,
  // and a job without a next run is a disabled one-shot: no enabled job is ever stuck.
  lemma NoJobIsStuck(iso: IsoParser, steps: seq<Step>, i: nat)
    requires i < |Run(iso, steps).cron.jobs|
    ensures
      var jobs := Run(iso, steps).cron.jobs;
      && JobOk(iso, jobs[i])
      && (jobs[i].enabled ==> jobs[i].nextRunAt > 0)
      && (jobs[i].nextRunAt <= 0 ==> jobs[i].timing.kind == "at" && !jobs[i].enabled)
      && forall j :: 0 <= j < |jobs| && j != i ==> jobs[j].id != jobs[i].id
  {
    EveryRunKeepsInv(iso, steps);
  }

  // Main result 7. A restart loses nothing: in every reachable state and at any time it
  // brings back the list as it stands, all jobs in order with all their fields, next runs
  // renewed where there are none; no callback is then in progress.
  lemma RestartLosesNothing(iso: IsoParser, steps: seq<Step>, now: Clock)
    ensures
      var s := Run(iso, steps);
      var after := Apply(iso, s, Restart(now));
      && |after.cron.jobs| == |s.cron.jobs| && after.cron.inFlight == {} && after.active == map[]
      && forall i :: 0 <= i < |s.cron.jobs| ==>
        && after.cron.jobs[i] == s.cron.jobs[i].(nextRunAt := after.cron.jobs[i].nextRunAt)
        && (s.cron.jobs[i].nextRunAt > 0 ==> after.cron.jobs[i] == s.cron.jobs[i])
        && after.cron.jobs[i].nextRunAt > 0
  {
    var s := Run(iso, steps);
    EveryRunKeepsInv(iso, steps);
    FileBacks(iso, s, now);
    forall i | 0 <= i < |s.cron.jobs|
      ensures Refreshed(iso, s.cron.jobs[i], now).nextRunAt > 0
    {
      RefreshedIsOk(iso, s.cron.jobs[i], now);
    }
  }

  lemma FileBacks(iso: IsoParser, s: Sys, now: Clock)
    requires Inv(iso, s)
    ensures Apply(iso, s, Restart(now)).cron == Cron(AllRefreshed(iso, s.cron.jobs, now), {})
    ensures Apply(iso, s, Restart(now)).active == map[]
  {
    assert LoadRows(iso, s.file, now) == Ok(AllRefreshed(iso, s.saved, now));
    if s.cron.jobs != s.saved {
      var since: nat :| s.cron.jobs == AllRefreshed(iso, s.saved, since);
      AllRefreshedAnytime(iso, s.saved, since, now);
    }
  }

  // Main result 4. Updating any reachable job with the empty patch succeeds, and changes
  // nothing unless the job has no next run; then only that is computed anew.
  lemma EmptyUpdateIsNoOp(iso: IsoParser, steps: seq<Step>, id: string, now: nat)
    requires HasJob(Run(iso, steps).cron.jobs, id)
    ensures
      var s := Run(iso, steps);
      var job := s.cron.jobs[FindJob(s.cron.jobs, id)];
      && UpdateReply(iso, s.cron, id, Obj(map[]), now) == Done(Refreshed(iso, job, now))
      && (job.nextRunAt > 0 ==> AfterUpdate(iso, s.cron, id, Obj(map[]), now) == s.cron)
  {
    EveryRunKeepsInv(iso, steps);
    EmptyUpdate(iso, Run(iso, steps).cron, id, now);
  }

  lemma EmptyUpdate(iso: IsoParser, c: Cron, id: string, now: nat)
    requires HasJob(c.jobs, id) && JobOk(iso, c.jobs[FindJob(c.jobs, id)])
    ensures
      var job := c.jobs[FindJob(c.jobs, id)];
      && UpdateReply(iso, c, id, Obj(map[]), now) == Done(Refreshed(iso, job, now))
      && (job.nextRunAt > 0 ==> AfterUpdate(iso, c, id, Obj(map[]), now) == c)
  {
    var k := FindJob(c.jobs, id);
    EmptyPatchParses(iso, c.jobs[k], now);
    assert c.jobs[k := c.jobs[k]] == c.jobs;
  }

  lemma EmptyPatchParses(iso: IsoParser, j: Job, now: nat)
    requires JobOk(iso, j)
    ensures ParseJobSpec(iso, MergePatch.Merge(JobToJson(j), Obj(map[])), j.id, now, true) == Ok(Refreshed(iso, j, now))
    ensures j.nextRunAt > 0 ==> Refreshed(iso, j, now) == j
  {
    MergePatch.EmptyPatch(JobToJson(j));
    JobRoundTrip(iso, j, now, true);
  }

  // The retry ladder: half a minute, a minute, five, fifteen, and an hour from then on.
  predicate RetryIs(errors: int, delay: int) {
    && (errors <= 0 ==> delay == 0)
    && (errors == 1 ==> delay == 30000)
    && (errors == 2 ==> delay == 60000)
    && (errors == 3 ==> delay == 300000)
    && (errors == 4 ==> delay == 900000)
    && (errors >= 5 ==> delay == 3600000)
  }

  // What a run leaves of its job: a finished one-shot is erased or switched off, a
  // repeating job comes back, and everything else about it stays.
  ghost predicate Ran(iso: IsoParser, j: Job, success: bool, endedAt: nat, after: Option<Job>) {
    && (after.None? <==> j.timing.kind == "at" && j.deleteAfterRun)
    && (after.Some? ==>
          && after.value == j.(enabled := j.enabled && j.timing.kind != "at", nextRunAt := after.value.nextRunAt,
                               lastRunAt := endedAt, lastSuccessAt := if success then endedAt else j.lastSuccessAt,
                               consecutiveErrors := if success then 0 else j.consecutiveErrors + 1)
          && ComesBack(j, success, endedAt, after.value.nextRunAt))
  }

  // A one-shot never, after a failure by the ladder, else its interval of a second at
  // least later, or at the least matching minute after the minute of the end plus one
  // second.
  ghost predicate ComesBack(j: Job, success: bool, endedAt: nat, at: int) {
    if j.timing.kind == "at" then at == 0
    else if !success then RetryIs(j.consecutiveErrors + 1, at - endedAt)
    else if j.timing.kind == "every" then
      var delay := at - endedAt;
      delay >= 1000 && delay >= j.timing.everyMs && (delay == 1000 || delay == j.timing.everyMs)
    else
      var cron := CronExpr.ReadExpr(j.timing.cronExpr);
      cron.Parsed? && IsNextRun(cron.schedule, endedAt + 1000, at)
  }

  // Main result 6. What a run does to its job.
  lemma AfterRunMeaning(iso: IsoParser, j: Job, success: bool, endedAt: nat)
    requires JobOk(iso, j)
    ensures Ran(iso, j, success, endedAt, AfterRun(iso, j, success, endedAt))
  {
    RunFields(iso, j, success, endedAt);
    RunReturns(iso, j, success, endedAt);
  }

  lemma RunFields(iso: IsoParser, j: Job, success: bool, endedAt: nat)
    requires JobOk(iso, j)
    ensures
      var after := AfterRun(iso, j, success, endedAt);
      && (after.None? <==> j.timing.kind == "at" && j.deleteAfterRun)
      && (after.Some? ==>
            after.value == j.(enabled := j.enabled && j.timing.kind != "at", nextRunAt := after.value.nextRunAt,
                              lastRunAt := endedAt, lastSuccessAt := if success then endedAt else j.lastSuccessAt,
                              consecutiveErrors := if success then 0 else j.consecutiveErrors + 1))
  {
  }

  lemma RunReturns(iso: IsoParser, j: Job, success: bool, endedAt: nat)
    requires JobOk(iso, j)
    ensures
      var after := AfterRun(iso, j, success, endedAt);
      after.Some? ==> ComesBack(j, success, endedAt, after.value.nextRunAt)
  {
    NextRunAfter(iso, j, success, endedAt);
    if success && j.timing.kind == "cron" {
      CronReturns(iso, j.timing, endedAt + 1000);
    } else if !success {
      RetryDelayIs(j.consecutiveErrors + 1);
    }
  }

  lemma NextRunAfter(iso: IsoParser, j: Job, success: bool, endedAt: nat)
    requires JobOk(iso, j)
    ensures
      var after := AfterRun(iso, j, success, endedAt);
      after.Some? ==>
        after.value.nextRunAt ==
          if j.timing.kind == "at" then 0
          else if !success then endedAt + RetryBackoffMs(j.consecutiveErrors + 1)
          else if j.timing.kind == "every" then endedAt + IntervalOf(j.timing.everyMs)
          else FirstRun(iso, j.timing, endedAt + 1000)
  {
  }

  lemma RetryDelayIs(errors: int)
    ensures RetryIs(errors, RetryBackoffMs(errors))
  {
  }

  lemma CronReturns(iso: IsoParser, t: Timing, now: nat)
    requires t.kind == "cron" && TimingOk(iso, t)
    ensures CronExpr.ReadExpr(t.cronExpr).Parsed?
    ensures IsNextRun(CronExpr.ReadExpr(t.cronExpr).schedule, now, FirstRun(iso, t, now))
  {
    CronExpr.ParsedIsUsable(t.cronExpr);
    NextRunMeaning(CronExpr.ReadExpr(t.cronExpr).schedule, now);
  }

  // The loop collects exactly the ids of the enabled jobs whose time has come and that
  // are not in progress.
  lemma {:induction false} DueIdsMeaning(c: Cron, jobs: seq<Job>, now: int, id: string)
    ensures id in DueIds(c, jobs, now) <==> exists i :: 0 <= i < |jobs| && jobs[i].id == id && Due(c, jobs[i], now)
  {
    if jobs != [] {
      var n := |jobs| - 1;
      DueIdsMeaning(c, jobs[..n], now, id);
      if i :| 0 <= i < n && jobs[..n][i].id == id && Due(c, jobs[..n][i], now) {
        assert jobs[i].id == id && Due(c, jobs[i], now);
      }
    }
  }

  // Main result 5. After a failed run a repeating job comes back after the delay of the
  // retry ladder, at most an hour, and never sooner than after the failure before; the
  // delay is at least half a minute exactly when the failure count was not negative, as a
  // caller may have set it, and then nothing is waited at all.
  lemma RetryDelays(iso: IsoParser, j: Job, endedAt: nat)
    requires j.timing.kind != "at"
    ensures
      var after := AfterRun(iso, j, false, endedAt);
      && after.Some? && after.value.consecutiveErrors == j.consecutiveErrors + 1
      && RetryBackoffMs(j.consecutiveErrors) <= after.value.nextRunAt - endedAt <= 3600000
      && (after.value.nextRunAt - endedAt >= 30000 <==> j.consecutiveErrors >= 0)
      && (after.value.nextRunAt == endedAt <==> j.consecutiveErrors < 0)
  {
  }

  // ------------------------------------------------------------------
  // Where 64 bits end

  const INT64_MAX := 0x7FFF_FFFF_FFFF_FFFF

  // A sum as a 64-bit integer holds it.
  function Int64(n: int): int {
    (n + INT64_MAX + 1) % (2 * (INT64_MAX + 1)) - INT64_MAX - 1
  }

  // The next run of an interval job is what it is here, and so positive, exactly when the
  // sum of clock and interval fits in 64 bits.
  lemma IntervalFits(iso: IsoParser, t: Timing, now: nat)
    requires t.kind == "every"
    requires 0 < t.everyMs <= INT64_MAX && now <= INT64_MAX
    ensures Int64(FirstRun(iso, t, now)) > 0 <==> now <= INT64_MAX - IntervalOf(t.everyMs)
    ensures Int64(FirstRun(iso, t, now)) == FirstRun(iso, t, now) <==> now <= INT64_MAX - IntervalOf(t.everyMs)
  {
    var sum := FirstRun(iso, t, now);
    if sum <= INT64_MAX {
      FitsIn64(sum);
    } else {
      WrapsIn64(sum);
    }
  }

  lemma FitsIn64(n: int)
    requires 0 <= n <= INT64_MAX
    ensures Int64(n) == n
  {
  }

  lemma WrapsIn64(n: int)
    requires INT64_MAX < n <= 2 * INT64_MAX
    ensures Int64(n) < 0
  {
    assert (n + INT64_MAX + 1) % (2 * (INT64_MAX + 1)) == n - INT64_MAX - 1;
  }
}
