/**
 The schedule runner: what is due at a tick, and how jobs and checkpoints follow,
 for one schedule at a time. The recurrence library (section 3.8.5.3 of RFC 5545)
 is a set of times per rule text with a windowed query.
 */
module ScheduleModel {
  import opened Basics

  const BATCH: nat := 16

  type Rule = Octets

  /**
   `horizon` is the longest search the rule's frequency allows. The query asks for
   dates before one millisecond past the end of the search; `reach` is 1 if the
   library counts that bound in, and 0 if it does not.
   */
  datatype Calendar = Calendar(occurs: (Rule, nat) -> bool, parses: Rule -> bool, horizon: Rule -> nat, reach: nat)

  // ----- queries -----

  /** The occurrences from `lo` to `hi`, ascending. */
  function Between(cal: Calendar, rule: Rule, lo: nat, hi: nat): seq<nat>
    decreases hi
  {
    var here := if lo <= hi && cal.occurs(rule, hi) then [hi] else [];
    if hi == 0 then here else Between(cal, rule, lo, hi - 1) + here
  }

  /** Up to a batch of run times, and whether the query stopped for their number. */
  datatype Runs = Runs(runAt: seq<nat>, more: bool)

  function SearchedUntil(cal: Calendar, rule: Rule, from: nat, now: nat): nat {
    Min(now, SaturatingAdd(from, cal.horizon(rule)))
  }

  /** One date more than a batch is fetched; the bound `from` itself is not a new run. */
  function Query(cal: Calendar, rule: Rule, from: nat, now: nat): Runs {
    var all := Between(cal, rule, from, SearchedUntil(cal, rule, from, now) + cal.reach);
    var dates := all[..Min(|all|, BATCH + 1)];
    var later := if dates != [] && dates[0] <= from then dates[1..] else dates;
    Runs(later[..Min(|later|, BATCH)], |later| > BATCH || |dates| == BATCH + 1)
  }

  function NextCheckpoint(now: nat, runs: Runs): nat {
    if runs.more && runs.runAt != [] then runs.runAt[|runs.runAt| - 1] else now
  }

  // ----- one schedule -----

  /** `timing` stands for the start time; `note` for everything that is not timing. */
  datatype Info = Info(rule: Rule, timing: nat, enabled: bool, archived: bool, revision: nat, note: nat)

  datatype Due = Due(info: Info, runAt: nat, checkpointAfter: nat)

  datatype Job = Job(rule: Rule, plannedAt: nat)

  /** `batch` are the due runs of the current tick, `awaiting` the one whose job exists but whose checkpoint is not yet stored. */
  datatype Schedule = Schedule(
    info: Info, checkpoint: nat, batch: seq<Due>, awaiting: Option<Due>, jobs: seq<Job>)

  /** The checkpoint of a schedule created or retimed now: just before the current second. */
  function FreshCheckpoint(now: nat): nat {
    var second := now - now % 1000;
    if second == 0 then 0 else second - 1
  }

  predicate Runnable(cal: Calendar, info: Info) {
    info.enabled && !info.archived && cal.parses(info.rule)
  }

  function DueRuns(info: Info, runs: Runs, final: nat): seq<Due> {
    seq(|runs.runAt|, i requires 0 <= i < |runs.runAt| =>
      Due(info, runs.runAt[i], if i + 1 == |runs.runAt| then final else runs.runAt[i]))
  }

  /** The scan at a tick. */
  function Scan(cal: Calendar, s: Schedule, now: nat): Schedule {
    if !Runnable(cal, s.info) then s.(checkpoint := now)
    else
      var runs := Query(cal, s.info.rule, s.checkpoint, now);
      var final := NextCheckpoint(now, runs);
      if runs.runAt == [] then s.(checkpoint := final)
      else s.(batch := DueRuns(s.info, runs, final))
  }

  /** The revision guard of a scheduled job. */
  predicate GuardHolds(info: Info, due: Due) {
    info.revision == due.info.revision && info.enabled && !info.archived
  }

  /** Create the job of the next due run; after a failure the rest of the batch is given up. */
  function Fire(s: Schedule, ok: bool): Schedule
    requires s.batch != [] && s.awaiting.None?
  {
    var due := s.batch[0];
    if ok && GuardHolds(s.info, due) then
      s.(batch := s.batch[1..], awaiting := Some(due), jobs := s.jobs + [Job(due.info.rule, due.runAt)])
    else s.(batch := [])
  }

  /** Store the checkpoint of the job just created, unless the schedule was edited meanwhile. */
  function Advance(s: Schedule): Schedule
    requires s.awaiting.Some?
  {
    var due := s.awaiting.value;
    s.(awaiting := None,
       checkpoint := if s.info.revision == due.info.revision then Max(s.checkpoint, due.checkpointAfter) else s.checkpoint)
  }

  function NextRevision(previous: nat, now: nat): nat {
    Max(now, SaturatingAdd(previous, 1))
  }

  predicate SameTiming(a: Info, b: Info) {
    a.rule == b.rule && a.timing == b.timing && a.enabled == b.enabled && a.archived == b.archived
  }

  /** An update: the revision always moves, the checkpoint is reset only when timing changes. */
  function Edit(s: Schedule, wanted: Info, now: nat): Schedule {
    var info := wanted.(revision := NextRevision(s.info.revision, now));
    s.(info := info,
       checkpoint := if SameTiming(info, s.info) then s.checkpoint else FreshCheckpoint(now))
  }

  // ----- restart -----

  /** The latest planned time of a persisted job under this rule text, or `start`. */
  function LatestPlanned(jobs: seq<Job>, rule: Rule, start: nat): nat {
    if jobs == [] then start
    else
      var best := LatestPlanned(jobs[..|jobs| - 1], rule, start);
      var job := jobs[|jobs| - 1];
      if job.rule == rule then Max(best, job.plannedAt) else best
  }

  function Restored(info: Info, persisted: seq<Job>, now: nat): Schedule {
    Schedule(info, LatestPlanned(persisted, info.rule, FreshCheckpoint(now)), [], None, persisted)
  }
}
