// What every operation of the scheduler does, in every reachable state: stated on the
// jobs, the documents and the callbacks in progress.
module CronEdits {
  import opened Prelude
  import opened Json
  import CronExpr
  import opened CronCalendar
  import opened CronJobs
  import opened CronScheduler
  import opened CronRuns
  import opened CronMeaning
  import MergePatch

  // The one position of an id.
  ghost predicate ListedAt(jobs: seq<Job>, id: string, k: int) {
    0 <= k < |jobs| && jobs[k].id == id && forall i :: 0 <= i < |jobs| && i != k ==> jobs[i].id != id
  }

  ghost predicate Unlisted(jobs: seq<Job>, id: string) {
    forall i :: 0 <= i < |jobs| ==> jobs[i].id != id
  }

  lemma Listing(iso: IsoParser, s: Sys, id: string)
    requires Inv(iso, s)
    ensures HasJob(s.cron.jobs, id) <==> !Unlisted(s.cron.jobs, id)
    ensures HasJob(s.cron.jobs, id) ==>
      ListedAt(s.cron.jobs, id, FindJob(s.cron.jobs, id)) && JobOk(iso, s.cron.jobs[FindJob(s.cron.jobs, id)])
  {
  }

  // ------------------------------------------------------------------
  // Adding and updating

  // Main result 1. A job is added exactly when the document is well typed and describes a
  // job that is allowed; it is that job, and it comes last.
  lemma AddMeaning(iso: IsoParser, c: Cron, payload: Json, id: string, now: nat, j: Job)
    requires id != ""
    ensures AddReply(iso, payload, id, now) == Done(j) <==>
      j.id == id && WellTyped(payload, j.payload.kind) && Means(iso, payload, now, j) && Allowed(iso, j, true)
    ensures AddReply(iso, payload, id, now) == Done(j) ==>
      AfterAdd(iso, c, payload, id, now) == Cron(c.jobs + [j], c.inFlight)
    ensures !AddReply(iso, payload, id, now).Done? ==> AfterAdd(iso, c, payload, id, now) == c
    ensures AddReply(iso, payload, id, now).Done? || AddReply(iso, payload, id, now).Declined?
  {
    ReadExactly(iso, payload, id, now, true, j);
  }

  ghost predicate UpdatedAt(iso: IsoParser, c: Cron, id: string, patch: Json, now: nat, j: Job, k: int, after: Cron) {
    && ListedAt(c.jobs, id, k) && Updated(iso, patch, c.jobs[k], now, j)
    && after == Cron(c.jobs[k := j], c.inFlight)
  }

  // Main result 2. In every reachable state, an update that is answered with a job has
  // given it what the patch names and kept the rest, and has stored it in its old place.
  lemma UpdateMeaning(iso: IsoParser, steps: seq<Step>, id: string, patch: Json, now: nat, j: Job)
    ensures
      var c := Run(iso, steps).cron;
      var reply := UpdateReply(iso, c, id, patch, now);
      && (reply == PatchNotObject <==> !patch.Obj?)
      && (reply == NotFound <==> patch.Obj? && Unlisted(c.jobs, id))
      && (reply == Done(j) ==> patch.Obj? && JobOk(iso, j) && j.nextRunAt > 0)
      && (reply == Done(j) ==> exists k :: UpdatedAt(iso, c, id, patch, now, j, k, AfterUpdate(iso, c, id, patch, now)))
      && (!reply.Done? ==> AfterUpdate(iso, c, id, patch, now) == c)
  {
    var s := Run(iso, steps);
    EveryRunKeepsInv(iso, steps);
    Listing(iso, s, id);
    UpdateAnswers(iso, s.cron, id, patch, now);
    if UpdateReply(iso, s.cron, id, patch, now) == Done(j) {
      UpdateGives(iso, s.cron, id, patch, now, j);
    }
  }

  lemma UpdateAnswers(iso: IsoParser, c: Cron, id: string, patch: Json, now: nat)
    ensures
      var reply := UpdateReply(iso, c, id, patch, now);
      && (reply == PatchNotObject <==> !patch.Obj?)
      && (reply == NotFound <==> patch.Obj? && !HasJob(c.jobs, id))
      && (!reply.Done? ==> AfterUpdate(iso, c, id, patch, now) == c)
  {
  }

  lemma UpdateGives(iso: IsoParser, c: Cron, id: string, patch: Json, now: nat, j: Job)
    requires UpdateReply(iso, c, id, patch, now) == Done(j)
    requires HasJob(c.jobs, id) ==>
      ListedAt(c.jobs, id, FindJob(c.jobs, id)) && JobOk(iso, c.jobs[FindJob(c.jobs, id)])
    ensures HasJob(c.jobs, id) && patch.Obj? && JobOk(iso, j) && j.nextRunAt > 0
    ensures UpdatedAt(iso, c, id, patch, now, j, FindJob(c.jobs, id), AfterUpdate(iso, c, id, patch, now))
  {
    var was := c.jobs[FindJob(c.jobs, id)];
    UpdateParses(iso, was, patch, now, j);
    assert AfterUpdate(iso, c, id, patch, now) == Cron(c.jobs[FindJob(c.jobs, id) := j], c.inFlight);
  }

  lemma UpdateParses(iso: IsoParser, was: Job, patch: Json, now: nat, j: Job)
    requires patch.Obj? && JobOk(iso, was)
    requires ParseJobSpec(iso, MergePatch.Merge(JobToJson(was), patch), was.id, now, true) == Ok(j)
    ensures JobOk(iso, j) && j.nextRunAt > 0 && Updated(iso, patch, was, now, j)
  {
    var merged := MergePatch.Merge(JobToJson(was), patch);
    ReadExactly(iso, merged, was.id, now, true, j);
    StrictMeetsContract(iso, merged, was.id, now);
    MeansUpdated(iso, was, patch, now, j);
  }

  // Which updates are accepted: those after which the document is still one of a job.
  lemma UpdateAccepted(iso: IsoParser, steps: seq<Step>, id: string, patch: Json, now: nat, k: nat, j: Job)
    requires patch.Obj? && ListedAt(Run(iso, steps).cron.jobs, id, k)
    ensures
      var c := Run(iso, steps).cron;
      var merged := MergePatch.Merge(JobToJson(c.jobs[k]), patch);
      UpdateReply(iso, c, id, patch, now) == Done(j) <==>
        j.id == id && WellTyped(merged, j.payload.kind) && Means(iso, merged, now, j) && Allowed(iso, j, true)
  {
    var s := Run(iso, steps);
    EveryRunKeepsInv(iso, steps);
    Listing(iso, s, id);
    UpdateReads(iso, s.cron, id, patch, now, k);
    ReadExactly(iso, MergePatch.Merge(JobToJson(s.cron.jobs[k]), patch), id, now, true, j);
  }

  lemma UpdateReads(iso: IsoParser, c: Cron, id: string, patch: Json, now: nat, k: nat)
    requires patch.Obj? && ListedAt(c.jobs, id, k)
    ensures
      var parsed := ParseJobSpec(iso, MergePatch.Merge(JobToJson(c.jobs[k]), patch), id, now, true);
      UpdateReply(iso, c, id, patch, now) == if parsed.Ok? then Done(parsed.value) else Declined(Reason(parsed))
  {
  }

  // ------------------------------------------------------------------
  // Switching, removing

  ghost predicate SwitchedTo(iso: IsoParser, was: Job, enabled: bool, now: nat, j: Job) {
    && j == was.(enabled := enabled, nextRunAt := j.nextRunAt)
    && if enabled && was.nextRunAt <= 0 then FirstRunIs(iso, was.timing, now, j.nextRunAt)
      else j.nextRunAt == was.nextRunAt
  }

  ghost predicate SwitchedAt(iso: IsoParser, c: Cron, id: string, enabled: bool, now: nat, k: int, j: Job,
                             after: Cron) {
    && ListedAt(c.jobs, id, k) && SwitchedTo(iso, c.jobs[k], enabled, now, j)
    && after == Cron(c.jobs[k := j], c.inFlight)
  }

  // Main result 3. Switching sets the flag, and gives a job that is switched on a next
  // run when it has none; nothing else changes, in this job or in another.
  lemma EnableMeaning(iso: IsoParser, steps: seq<Step>, id: string, enabled: bool, now: nat)
    ensures
      var c := Run(iso, steps).cron;
      var after := AfterSetEnabled(iso, c, id, enabled, now);
      if Unlisted(c.jobs, id) then after == c
      else exists k, j :: SwitchedAt(iso, c, id, enabled, now, k, j, after)
  {
    var s := Run(iso, steps);
    EveryRunKeepsInv(iso, steps);
    Listing(iso, s, id);
    if HasJob(s.cron.jobs, id) {
      var k := FindJob(s.cron.jobs, id);
      var j := s.cron.jobs[k];
      FirstRunExactly(iso, j.timing, now, FirstRun(iso, j.timing, now));
      assert SwitchedAt(iso, s.cron, id, enabled, now, k, WithEnabled(iso, j, enabled, now),
                        AfterSetEnabled(iso, s.cron, id, enabled, now));
    }
  }

  ghost predicate RemovedAt(c: Cron, id: string, after: Cron) {
    exists k :: ListedAt(c.jobs, id, k) && after == Cron(c.jobs[..k] + c.jobs[k + 1..], c.inFlight - {id})
  }

  // Main result 4. Removing takes out that job and its flag, and leaves the others in
  // their order.
  lemma RemoveMeaning(iso: IsoParser, steps: seq<Step>, id: string)
    ensures
      var c := Run(iso, steps).cron;
      var after := AfterRemove(c, id);
      if Unlisted(c.jobs, id) then after == c
      else RemovedAt(c, id, after)
  {
    var s := Run(iso, steps);
    EveryRunKeepsInv(iso, steps);
    Listing(iso, s, id);
    if HasJob(s.cron.jobs, id) {
      RemoveGives(s.cron, id, FindJob(s.cron.jobs, id));
    }
  }

  lemma RemoveGives(c: Cron, id: string, k: nat)
    requires ListedAt(c.jobs, id, k) && HasJob(c.jobs, id)
    ensures RemovedAt(c, id, AfterRemove(c, id))
  {
    RemovesOne(c.jobs, id, k);
    assert AfterRemove(c, id) == Cron(c.jobs[..k] + c.jobs[k + 1..], c.inFlight - {id});
  }

  lemma {:induction false} RemovesOne(jobs: seq<Job>, id: string, k: nat)
    requires ListedAt(jobs, id, k)
    ensures WithoutId(jobs, id) == jobs[..k] + jobs[k + 1..]
  {
    var init, last := jobs[..|jobs| - 1], jobs[|jobs| - 1];
    WithoutIdSnoc(init, last, id);
    assert init + [last] == jobs;
    if k == |init| {
      RemovesNone(init, id);
      EraseLast(init, last);
    } else {
      RemovesOne(init, id, k);
      EraseInner(init, last, k);
    }
  }

  lemma WithoutIdSnoc(jobs: seq<Job>, last: Job, id: string)
    ensures WithoutId(jobs + [last], id) == WithoutId(jobs, id) + if last.id == id then [] else [last]
  {
    assert (jobs + [last])[..|jobs|] == jobs;
  }

  lemma EraseLast(jobs: seq<Job>, last: Job)
    ensures var all := jobs + [last]; all[..|jobs|] + all[|jobs| + 1..] == jobs + []
  {
  }

  lemma EraseInner(jobs: seq<Job>, last: Job, k: nat)
    requires k < |jobs|
    ensures var all := jobs + [last]; all[..k] + all[k + 1..] == jobs[..k] + jobs[k + 1..] + [last]
  {
  }

  ghost predicate Untouched(jobs: seq<Job>, id: string) {
    WithoutId(jobs, id) == jobs
  }

  lemma {:induction false} RemovesNone(jobs: seq<Job>, id: string)
    requires Unlisted(jobs, id)
    ensures Untouched(jobs, id)
  {
    if jobs == [] {
      NothingUntouched(id);
    } else {
      var init, last := jobs[..|jobs| - 1], jobs[|jobs| - 1];
      UnlistedParts(jobs, id);
      RemovesNone(init, id);
      OneMoreUntouched(init, last, id);
      assert init + [last] == jobs;
    }
  }

  lemma UnlistedParts(jobs: seq<Job>, id: string)
    requires Unlisted(jobs, id) && jobs != []
    ensures Unlisted(jobs[..|jobs| - 1], id) && jobs[|jobs| - 1].id != id
  {
  }

  lemma NothingUntouched(id: string)
    ensures Untouched([], id)
  {
  }

  lemma OneMoreUntouched(jobs: seq<Job>, last: Job, id: string)
    requires Untouched(jobs, id) && last.id != id
    ensures Untouched(jobs + [last], id)
  {
    WithoutIdSnoc(jobs, last, id);
  }

  // ------------------------------------------------------------------
  // Running

  // A run may start now: by force, or because no later time is set.
  predicate MayStart(j: Job, mode: string, at: int) {
    mode == "force" || (mode == "due" && (j.nextRunAt <= 0 || at >= j.nextRunAt))
  }

  ghost predicate NotYet(jobs: seq<Job>, id: string, mode: string, at: int) {
    exists k :: ListedAt(jobs, id, k) && !MayStart(jobs[k], mode, at)
  }

  // Main result 5. In every reachable state, a run starts exactly when the id is listed,
  // no callback of it is in progress and its time has come or it is forced; it is handed
  // the job listed under that id. Every other answer says which of these failed first.
  lemma BeginMeaning(iso: IsoParser, steps: seq<Step>, id: string, mode: string, at: int, j: Job)
    ensures
      var s := Run(iso, steps);
      var reply := BeginReply(s.cron, id, mode, at);
      var known := mode == "force" || mode == "due";
      && (reply == Started(j) <==> j in s.cron.jobs && j.id == id && !Active(s.active, id) && MayStart(j, mode, at))
      && (reply == BadMode <==> !known)
      && (reply == NoSuchJob <==> known && Unlisted(s.cron.jobs, id))
      && (reply == AlreadyRunning <==> known && !Unlisted(s.cron.jobs, id) && Active(s.active, id))
      && (reply == NotDue <==> known && !Active(s.active, id) && NotYet(s.cron.jobs, id, mode, at))
      && AfterBegin(s.cron, id, mode, at)
        == if reply.Started? then Cron(s.cron.jobs, s.cron.inFlight + {id}) else s.cron
  {
    var s := Run(iso, steps);
    EveryRunKeepsInv(iso, steps);
    Listing(iso, s, id);
    RunsAreExclusive(iso, steps);
  }

  ghost predicate EndedAt(iso: IsoParser, jobs: seq<Job>, id: string, success: bool, now: nat, after: seq<Job>) {
    exists k, ran :: ListedAt(jobs, id, k) && Ran(iso, jobs[k], success, now, ran) && Replaced(jobs, k, ran, after)
  }

  ghost predicate Replaced(jobs: seq<Job>, k: nat, ran: Option<Job>, after: seq<Job>)
    requires k < |jobs|
  {
    after == if ran.Some? then jobs[k := ran.value] else jobs[..k] + jobs[k + 1..]
  }

  // Main result 6. When a callback ends its flag goes, and only its own job changes: it
  // becomes what the run makes of it, or leaves the list.
  lemma EndMeaning(iso: IsoParser, steps: seq<Step>, id: string, success: bool, now: nat)
    ensures
      var c := Run(iso, steps).cron;
      var after := AfterEnd(iso, c, id, success, now);
      && after.inFlight == c.inFlight - {id}
      && if Unlisted(c.jobs, id) then after.jobs == c.jobs else EndedAt(iso, c.jobs, id, success, now, after.jobs)
  {
    var s := Run(iso, steps);
    EveryRunKeepsInv(iso, steps);
    Listing(iso, s, id);
    if HasJob(s.cron.jobs, id) {
      EndGives(iso, s.cron, id, success, now, FindJob(s.cron.jobs, id));
    }
  }

  lemma EndGives(iso: IsoParser, c: Cron, id: string, success: bool, now: nat, k: nat)
    requires ListedAt(c.jobs, id, k) && JobOk(iso, c.jobs[k])
    ensures EndedAt(iso, c.jobs, id, success, now, AfterEnd(iso, c, id, success, now).jobs)
  {
    AfterRunMeaning(iso, c.jobs[k], success, now);
    var ran := AfterRun(iso, c.jobs[k], success, now);
    assert Replaced(c.jobs, k, ran, AfterEnd(iso, c, id, success, now).jobs);
  }

  // The ids at increasing positions of the list, those of the due jobs.
  ghost predicate DueAt(c: Cron, jobs: seq<Job>, now: int, ids: seq<string>, pos: seq<nat>) {
    && Increasing(pos, |jobs|) && |pos| == |ids|
    && (forall i :: 0 <= i < |pos| ==> ids[i] == jobs[pos[i]].id)
    && (forall n :: 0 <= n < |jobs| ==>
          (n in pos <==> jobs[n].enabled && 0 < jobs[n].nextRunAt <= now && jobs[n].id !in c.inFlight))
  }

  // The loop hands out the due ids in the order of the list.
  lemma {:induction false} DueIdsInOrder(c: Cron, jobs: seq<Job>, now: int) returns (pos: seq<nat>)
    ensures DueAt(c, jobs, now, DueIds(c, jobs, now), pos)
  {
    if jobs == [] {
      pos := [];
    } else {
      var n := |jobs| - 1;
      var before := DueIdsInOrder(c, jobs[..n], now);
      pos := OneMoreDue(c, jobs[..n], jobs[n], now, DueIds(c, jobs[..n], now), before);
      assert jobs[..n] + [jobs[n]] == jobs;
    }
  }

  lemma OneMoreDue(c: Cron, init: seq<Job>, last: Job, now: int, ids: seq<string>, before: seq<nat>)
    returns (pos: seq<nat>)
    requires DueAt(c, init, now, ids, before)
    ensures DueAt(c, init + [last], now, ids + if Due(c, last, now) then [last.id] else [], pos)
  {
    pos := OneMoreAtEnd(before, |init|, Due(c, last, now));
  }

  // ------------------------------------------------------------------
  // Reading the file

  // A row of the file: no object or no id, or a job that is refused, is passed over; a
  // member of the wrong type ends the load.
  ghost predicate RowIs(iso: IsoParser, row: Json, now: nat, loaded: seq<Job>) {
    if !row.Obj? || TextIs(row, "id", "", "") then loaded == []
    else
      row.At("id").Str? &&
      if loaded == [] then ParseJobSpec(iso, row, row.At("id").text, now, false).Refused?
      else
        |loaded| == 1 && var j := loaded[0];
        row.At("id") == Str(j.id) && WellTyped(row, j.payload.kind) && Means(iso, row, now, j) && Allowed(iso, j, false)
  }

  lemma RowMeaning(iso: IsoParser, row: Json, now: nat, loaded: seq<Job>)
    ensures LoadRow(iso, row, now) == Ok(loaded) <==> RowIs(iso, row, now, loaded)
  {
    if row.At("id").Str? && row.At("id").text != "" {
      var id := row.At("id").text;
      RowWithId(iso, row, id, now, loaded);
      if |loaded| == 1 {
        ReadExactly(iso, row, id, now, false, loaded[0]);
      }
    }
  }

  lemma RowWithId(iso: IsoParser, row: Json, id: string, now: nat, loaded: seq<Job>)
    requires row.At("id") == Str(id) && id != ""
    ensures LoadRow(iso, row, now) == Ok(loaded) <==>
      var parsed := ParseJobSpec(iso, row, id, now, false);
      if loaded == [] then parsed.Refused? else |loaded| == 1 && parsed == Ok(loaded[0])
  {
    var parsed := ParseJobSpec(iso, row, id, now, false);
    assert LoadRow(iso, row, now) == RowOf(parsed) by {
      assert StringOr<Refusal>(row, "id", "") == Ok(id);
    }
    RowOfMeaning(parsed, loaded);
  }

  ghost function RowOf(parsed: Result<Job>): Result<seq<Job>> {
    match parsed
    case Ok(job) => Ok([job])
    case Refused(_) => Ok([])
    case Thrown => Thrown
  }

  lemma RowOfMeaning(parsed: Result<Job>, loaded: seq<Job>)
    ensures RowOf(parsed) == Ok(loaded) <==>
      if loaded == [] then parsed.Refused? else |loaded| == 1 && parsed == Ok(loaded[0])
  {
    if |loaded| == 1 {
      assert loaded == [loaded[0]];
    }
  }

  // The jobs of the rows, row by row.
  ghost predicate Loaded(iso: IsoParser, rows: seq<Json>, now: nat, jobs: seq<Job>, parts: seq<seq<Job>>) {
    && |parts| == |rows| && jobs == Joined(parts)
    && forall i :: 0 <= i < |rows| ==> RowIs(iso, rows[i], now, parts[i])
  }

  ghost function Joined(parts: seq<seq<Job>>): seq<Job> {
    if parts == [] then [] else Joined(parts[..|parts| - 1]) + parts[|parts| - 1]
  }

  ghost predicate LoadedFrom(iso: IsoParser, rows: seq<Json>, now: nat, parts: seq<seq<Job>>) {
    LoadRows(iso, rows, now).Ok? && Loaded(iso, rows, now, LoadRows(iso, rows, now).value, parts)
  }

  // Main result 7. The load gives the jobs of the rows in the order of the rows.
  lemma {:induction false} LoadMeaning(iso: IsoParser, rows: seq<Json>, now: nat) returns (parts: seq<seq<Job>>)
    requires LoadRows(iso, rows, now).Ok?
    ensures LoadedFrom(iso, rows, now, parts)
  {
    if rows == [] {
      parts := [];
      NothingLoaded(iso, now);
    } else {
      var init, last := rows[..|rows| - 1], rows[|rows| - 1];
      LoadParts(iso, rows, now);
      var sofar := LoadMeaning(iso, init, now);
      parts := OneMoreLoaded(iso, init, last, now, sofar);
      LastLoaded(iso, rows, now, parts);
    }
  }

  lemma NothingLoaded(iso: IsoParser, now: nat)
    ensures LoadedFrom(iso, [], now, [])
  {
  }

  lemma LastLoaded(iso: IsoParser, rows: seq<Json>, now: nat, parts: seq<seq<Job>>)
    requires rows != [] && LoadedFrom(iso, rows[..|rows| - 1] + [rows[|rows| - 1]], now, parts)
    ensures LoadedFrom(iso, rows, now, parts)
  {
    SplitLast(rows);
  }

  lemma LoadParts(iso: IsoParser, rows: seq<Json>, now: nat)
    requires rows != [] && LoadRows(iso, rows, now).Ok?
    ensures LoadRows(iso, rows[..|rows| - 1], now).Ok? && LoadRow(iso, rows[|rows| - 1], now).Ok?
  {
  }

  lemma OneMoreLoaded(iso: IsoParser, rows: seq<Json>, last: Json, now: nat, before: seq<seq<Job>>)
    returns (parts: seq<seq<Job>>)
    requires LoadedFrom(iso, rows, now, before) && LoadRow(iso, last, now).Ok?
    ensures LoadedFrom(iso, rows + [last], now, parts)
  {
    var more := LoadRow(iso, last, now).value;
    parts := OneMorePart(iso, rows, last, now, LoadRows(iso, rows, now).value, more, before);
    LoadSnoc(iso, rows, last, now, LoadRows(iso, rows, now).value, more);
  }

  lemma OneMorePart(iso: IsoParser, rows: seq<Json>, last: Json, now: nat, jobs: seq<Job>, more: seq<Job>,
                    before: seq<seq<Job>>)
    returns (parts: seq<seq<Job>>)
    requires Loaded(iso, rows, now, jobs, before) && LoadRow(iso, last, now) == Ok(more)
    ensures Loaded(iso, rows + [last], now, jobs + more, parts)
  {
    RowMeaning(iso, last, now, more);
    parts := before + [more];
    assert parts[..|before|] == before;
  }
}
