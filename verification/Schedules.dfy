/** The schedule table and the job log, changed in place under the state lock. */
module Schedules {
  import opened Basics
  import opened ScheduleModel

  datatype Record = Record(info: Info, checkpoint: nat)

  /** A due run, and the schedule it belongs to. */
  datatype DueRun = DueRun(id: nat, due: Due)

  datatype ScheduledJob = ScheduledJob(id: nat, job: Job)

  function BatchOf(due: seq<DueRun>, id: nat): seq<Due> {
    if due == [] then []
    else BatchOf(due[..|due| - 1], id) + if due[|due| - 1].id == id then [due[|due| - 1].due] else []
  }

  function JobsOf(jobs: seq<ScheduledJob>, id: nat): seq<Job> {
    if jobs == [] then []
    else JobsOf(jobs[..|jobs| - 1], id) + if jobs[|jobs| - 1].id == id then [jobs[|jobs| - 1].job] else []
  }

  lemma BatchOfLast(due: seq<DueRun>, run: DueRun, id: nat)
    ensures BatchOf(due + [run], id) == BatchOf(due, id) + if run.id == id then [run.due] else []
  {
    assert (due + [run])[..|due|] == due;
  }

  lemma JobsOfLast(jobs: seq<ScheduledJob>, job: ScheduledJob, id: nat)
    ensures JobsOf(jobs + [job], id) == JobsOf(jobs, id) + if job.id == id then [job.job] else []
  {
    assert (jobs + [job])[..|jobs|] == jobs;
  }

  class Scheduler {
    const calendar: Calendar
    var records: map<nat, Record>
    var jobs: seq<ScheduledJob>

    constructor (calendar: Calendar)
      ensures this.calendar == calendar && records == map[] && jobs == []
    {
      this.calendar, records, jobs := calendar, map[], [];
    }

    /** One schedule of the table, with what the running tick still owes it. */
    ghost function View(id: nat, batch: seq<Due>, awaiting: Option<Due>): Schedule
      requires id in records
      reads this
    {
      Schedule(records[id].info, records[id].checkpoint, batch, awaiting, JobsOf(jobs, id))
    }

    /** The first half of a tick, under one lock: every schedule is scanned, and what is due is collected. */
    method ScanDue(now: nat) returns (due: seq<DueRun>)
      modifies this`records
      ensures records.Keys == old(records.Keys)
      ensures forall id :: id in records ==> View(id, BatchOf(due, id), None) == Scan(calendar, old(View(id, [], None)), now)
    {
      hide Query, DueRuns;
      due := [];
      var left := records.Keys;
      while left != {}
        invariant left <= records.Keys == old(records.Keys)
        invariant forall id :: id in left ==> records[id] == old(records[id]) && BatchOf(due, id) == []
        invariant forall id :: id in records.Keys - left ==>
                    View(id, BatchOf(due, id), None) == Scan(calendar, old(View(id, [], None)), now)
        decreases left
      {
        var id :| id in left;
        left := left - {id};
        var record := records[id];
        if !record.info.enabled || record.info.archived || !calendar.parses(record.info.rule) {
          records := records[id := record.(checkpoint := now)];
        } else {
          var runs := Query(calendar, record.info.rule, record.checkpoint, now);
          var final := NextCheckpoint(now, runs);
          if runs.runAt == [] {
            records := records[id := record.(checkpoint := final)];
          } else {
            due := Collect(due, id, record.info, runs, final);
          }
        }
      }
    }

    /** Append the due runs of one schedule; only the last one carries the final checkpoint. */
    method Collect(due: seq<DueRun>, id: nat, info: Info, runs: Runs, final: nat) returns (all: seq<DueRun>)
      requires BatchOf(due, id) == []
      ensures BatchOf(all, id) == DueRuns(info, runs, final)
      ensures forall other :: other != id ==> BatchOf(all, other) == BatchOf(due, other)
    {
      all := due;
      ghost var wanted := DueRuns(info, runs, final);
      for index := 0 to |runs.runAt|
        invariant BatchOf(all, id) == wanted[..index]
        invariant forall other :: other != id ==> BatchOf(all, other) == BatchOf(due, other)
      {
        var runAt := runs.runAt[index];
        var run := DueRun(id, Due(info, runAt, if index + 1 == |runs.runAt| then final else runAt));
        forall other
          ensures BatchOf(all + [run], other) == BatchOf(all, other) + if run.id == other then [run.due] else []
        {
          BatchOfLast(all, run, other);
        }
        assert wanted[..index + 1] == wanted[..index] + [wanted[index]];
        all := all + [run];
      }
      assert wanted[..|wanted|] == wanted;
    }

    /** `create_job_with_reason_checked`; `ok` is whether validation and persistence succeed. */
    method CreateJob(id: nat, due: Due, ok: bool) returns (created: bool)
      modifies this`jobs
      ensures created == (ok && id in records && GuardHolds(records[id].info, due))
      ensures jobs == old(jobs) + if created then [ScheduledJob(id, Job(due.info.rule, due.runAt))] else []
      ensures id in records ==> forall rest ::
                var s := old(View(id, [due] + rest, None));
                View(id, if created then rest else [], if created then Some(due) else None) == Fire(s, ok)
    {
      created := false;
      if id in records && ok {
        var info := records[id].info;
        if info.revision == due.info.revision && info.enabled && !info.archived {
          created := true;
          JobsOfLast(jobs, ScheduledJob(id, Job(due.info.rule, due.runAt)), id);
          jobs := jobs + [ScheduledJob(id, Job(due.info.rule, due.runAt))];
        }
      }
    }

    method AdvanceCheckpoint(id: nat, due: Due)
      modifies this`records
      ensures records.Keys == old(records.Keys)
      ensures forall other :: other in records && other != id ==> records[other] == old(records[other])
      ensures id in records ==> forall batch ::
                View(id, batch, None) == Advance(old(View(id, batch, Some(due))))
    {
      if id in records && records[id].info.revision == due.info.revision {
        records := records[id := records[id].(checkpoint := Max(records[id].checkpoint, due.checkpointAfter))];
      }
    }

    method UpdateSchedule(id: nat, wanted: Info, now: nat) returns (found: bool)
      modifies this`records
      ensures found == (id in old(records)) && records.Keys == old(records.Keys)
      ensures forall other :: other in records && other != id ==> records[other] == old(records[other])
      ensures found ==> forall batch, awaiting ::
                View(id, batch, awaiting) == Edit(old(View(id, batch, awaiting)), wanted, now)
    {
      found := id in records;
      if found {
        var previous := records[id];
        var info := wanted.(revision := NextRevision(previous.info.revision, now));
        var reset := info.rule != previous.info.rule || info.timing != previous.info.timing
                     || info.enabled != previous.info.enabled || info.archived != previous.info.archived;
        records := records[id := Record(info, if reset then FreshCheckpoint(now) else previous.checkpoint)];
      }
    }
  }

  /** The checkpoints a restarted daemon begins with. */
  method RestoreCheckpoints(infos: map<nat, Info>, jobs: seq<ScheduledJob>, now: nat) returns (checkpoints: map<nat, nat>)
    ensures checkpoints.Keys == infos.Keys
    ensures forall id :: id in infos ==> checkpoints[id] == Restored(infos[id], JobsOf(jobs, id), now).checkpoint
  {
    hide Latest, LatestPlanned, JobsOf, Restored;
    var fresh' := FreshCheckpoint(now);
    NoneYet(fresh');
    checkpoints := map id | id in infos :: fresh';
    for i := 0 to |jobs|
      invariant checkpoints.Keys == infos.Keys
      invariant forall id :: id in infos ==> checkpoints[id] == Latest(jobs[..i], id, infos[id].rule, fresh')
    {
      var ScheduledJob(id, job) := jobs[i];
      assert jobs[..i + 1] == jobs[..i] + [jobs[i]];
      forall other, rule
        ensures Latest(jobs[..i + 1], other, rule, fresh') ==
                var best := Latest(jobs[..i], other, rule, fresh');
                if other == id && job.rule == rule then Max(best, job.plannedAt) else best
      {
        LatestLast(jobs[..i], jobs[i], other, rule, fresh');
      }
      if id in infos && infos[id].rule == job.rule {
        checkpoints := checkpoints[id := Max(checkpoints[id], job.plannedAt)];
      }
    }
    assert jobs[..|jobs|] == jobs;
    forall id | id in infos
      ensures checkpoints[id] == Restored(infos[id], JobsOf(jobs, id), now).checkpoint
    {
      LatestIsRestored(jobs, id, infos[id], now);
    }
  }

  /** The latest planned time among the jobs of one schedule under one rule text. */
  ghost function Latest(jobs: seq<ScheduledJob>, id: nat, rule: Rule, start: nat): nat {
    LatestPlanned(JobsOf(jobs, id), rule, start)
  }

  lemma NoneYet(start: nat)
    ensures forall id, rule :: Latest([], id, rule, start) == start
  {
  }

  /** What is restored for one schedule is the checkpoint of the model's restored schedule. */
  lemma LatestIsRestored(jobs: seq<ScheduledJob>, id: nat, info: Info, now: nat)
    ensures Restored(info, JobsOf(jobs, id), now).checkpoint == Latest(jobs, id, info.rule, FreshCheckpoint(now))
  {
  }

  lemma LatestLast(jobs: seq<ScheduledJob>, job: ScheduledJob, id: nat, rule: Rule, start: nat)
    ensures Latest(jobs + [job], id, rule, start) ==
            var best := Latest(jobs, id, rule, start);
            if job.id == id && job.job.rule == rule then Max(best, job.job.plannedAt) else best
  {
    JobsOfLast(jobs, job, id);
    var seen := JobsOf(jobs, id);
    assert (seen + [job.job])[..|seen|] == seen;
    assert seen + [] == seen;
  }
}
