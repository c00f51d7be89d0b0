/** What edits, restarts and idle ticks do to a schedule, and what fires after them. */
module ScheduleEdits {
  import opened Basics
  import opened ScheduleModel
  import opened ScheduleSafety

  /** The beginning of the second in which `now` lies. */
  function SecondOf(now: nat): nat {
    1000 * (now / 1000)
  }

  /** A fresh checkpoint lies just before the current second, so that the whole second is still ahead of it. */
  lemma FreshIsJustBefore(now: nat)
    ensures var c := FreshCheckpoint(now);
            && (now < 1000 ==> c == 0)
            && (now >= 1000 ==> c + 1 == SecondOf(now) && c < now <= c + 1000 && (c + 1) % 1000 == 0)
  {
  }

  // ----- one edit -----

  /** The edit changes when the schedule runs, or whether it does. */
  predicate Retimes(s: Schedule, wanted: Info) {
    wanted.rule != s.info.rule || wanted.timing != s.info.timing
    || wanted.enabled != s.info.enabled || wanted.archived != s.info.archived
  }

  /**
   An edit takes on everything wanted under a later revision, which is no older than the
   clock. If it retimes the schedule, only what lies before the current second is behind
   it; otherwise the checkpoint stays. Nothing else changes.
   */
  lemma EditIs(s: Schedule, wanted: Info, now: nat)
    requires s.info.revision < U64_MAX
    ensures var t := Edit(s, wanted, now);
            && t.info == wanted.(revision := t.info.revision)
            && t.info.revision >= now && t.info.revision > s.info.revision
            && (t.info.revision == now || t.info.revision == s.info.revision + 1)
            && t.batch == s.batch && t.awaiting == s.awaiting && t.jobs == s.jobs
            && (!Retimes(s, wanted) ==> t.checkpoint == s.checkpoint)
            && (Retimes(s, wanted) && now < 1000 ==> t.checkpoint == 0)
            && (Retimes(s, wanted) && now >= 1000 ==> t.checkpoint + 1 == SecondOf(now))
  {
    FreshIsJustBefore(now);
  }

  // ----- what fires after an edit -----

  /** What holds of a schedule in any state: what it owes is of one snapshot, and the job awaiting its checkpoint exists. */
  ghost predicate Sane(s: Schedule) {
    && Snapshot(s)
    && (s.awaiting.Some? ==> Job(s.awaiting.value.info.rule, s.awaiting.value.runAt) in s.jobs)
  }

  lemma CompleteIsSane(cal: Calendar, s: Schedule, base: nat)
    requires Complete(cal, s, base)
    ensures Sane(s)
  {
  }

  /** After any edit whatever was owed is of an older revision, so the schedule starts afresh from its checkpoint. */
  lemma EditStartsAfresh(cal: Calendar, s: Schedule, wanted: Info, now: nat)
    requires Sane(s) && s.info.revision < U64_MAX
    ensures var t := Edit(s, wanted, now);
            Complete(cal, t, t.checkpoint) && forall i :: 0 <= i < |Owed(t)| ==> !Current(t, Owed(t)[i])
  {
    var t := Edit(s, wanted, now);
    EditIs(s, wanted, now);
    hide Edit;
    assert Owed(t) == Owed(s);
    forall i | 0 <= i < |Owed(t)|
      ensures Owed(t)[i].info.revision < t.info.revision
    {
      assert Owed(s)[i].info.revision <= s.info.revision;
    }
  }

  /** Nothing at or before `base` is owed, and every job from number `from` on lies after it, under the schedule's rule. */
  ghost predicate Since(s: Schedule, base: nat, from: nat) {
    && base <= s.checkpoint && from <= |s.jobs|
    && (forall i :: 0 <= i < |Owed(s)| && Current(s, Owed(s)[i]) ==>
          Owed(s)[i].runAt > base && Owed(s)[i].info.rule == s.info.rule)
    && (forall j :: from <= j < |s.jobs| ==> s.jobs[j].rule == s.info.rule && s.jobs[j].plannedAt > base)
  }

  lemma TickSince(cal: Calendar, s: Schedule, now: nat, base: nat, from: nat)
    requires Since(s, base, from) && base <= now && s.batch == [] && s.awaiting.None?
    ensures Since(Scan(cal, s, now), base, from)
  {
    hide Query, DueRuns;
    var t := Scan(cal, s, now);
    var q := Query(cal, s.info.rule, s.checkpoint, now);
    QueryLists(cal, s.info.rule, s.checkpoint, now);
    DueFacts(s.info, q, NextCheckpoint(now, q));
    assert q.runAt != [] ==> q.runAt[|q.runAt| - 1] in q.runAt;
    assert Owed(t) == t.batch;
    forall i | 0 <= i < |t.batch|
      ensures t.batch[i].runAt > base && t.batch[i].info.rule == t.info.rule
    {
      assert q.runAt[i] in q.runAt;
    }
  }

  lemma FireSince(s: Schedule, ok: bool, base: nat, from: nat)
    requires Since(s, base, from) && s.batch != [] && s.awaiting.None?
    ensures Since(Fire(s, ok), base, from)
  {
    var t := Fire(s, ok);
    assert Owed(s) == s.batch;
    if t.jobs != s.jobs {
      assert Owed(t) == s.batch;
      assert Current(s, Owed(s)[0]);
    } else {
      assert |t.jobs| == |s.jobs|;
    }
  }

  lemma AdvanceSince(s: Schedule, base: nat, from: nat)
    requires Since(s, base, from) && s.awaiting.Some?
    ensures Since(Advance(s), base, from)
  {
    hide Owed;
    AdvanceShifts(s);
    var t, owed := Advance(s), Owed(s);
    forall i | 0 <= i < |Owed(t)| && Current(t, Owed(t)[i])
      ensures Owed(t)[i].runAt > base && Owed(t)[i].info.rule == t.info.rule
    {
      assert Owed(t)[i] == owed[i + 1];
    }
  }

  lemma EditSince(cal: Calendar, s: Schedule, wanted: Info, now: nat, base: nat, from: nat)
    requires Since(s, base, from) && Sane(s) && Steady(cal, s, Edits(wanted, now))
    ensures Since(Edit(s, wanted, now), base, from)
  {
    EditIs(s, wanted, now);
    EditStartsAfresh(cal, s, wanted, now);
  }

  lemma StepSince(cal: Calendar, s: Schedule, step: Step, base: nat, from: nat)
    requires Since(s, base, from) && Sane(s) && Enabled(s, step) && Steady(cal, s, step) && (step.Tick? ==> base <= step.now)
    ensures Since(Apply(cal, s, step), base, from) && Apply(cal, s, step).info.rule == s.info.rule
  {
    hide Since, Sane, Scan, Fire, Advance, Edit;
    match step
    case Tick(now) => TickSince(cal, s, now, base, from); ScanKeepsInfo(cal, s, now);
    case Fires(ok) => FireSince(s, ok, base, from); FireKeepsInfo(s, ok);
    case Advances => AdvanceSince(s, base, from); AdvanceKeepsInfo(s);
    case Edits(wanted, now) => EditSince(cal, s, wanted, now, base, from); EditIs(s, wanted, now);
  }

  lemma ScanKeepsInfo(cal: Calendar, s: Schedule, now: nat)
    ensures Scan(cal, s, now).info == s.info && Scan(cal, s, now).jobs == s.jobs && Scan(cal, s, now).awaiting == s.awaiting
  {
    hide Query, DueRuns;
  }

  lemma FireKeepsInfo(s: Schedule, ok: bool)
    requires s.batch != [] && s.awaiting.None?
    ensures Fire(s, ok).info == s.info
  {
  }

  lemma AdvanceKeepsInfo(s: Schedule)
    requires s.awaiting.Some?
    ensures Advance(s).info == s.info
  {
  }

  /** A run of the schedule from `base` on: the clock does not go back before it. */
  ghost predicate Onward(steps: seq<Step>, base: nat) {
    forall i :: 0 <= i < |steps| && steps[i].Tick? ==> base <= steps[i].now
  }

  lemma {:induction false} RunSince(cal: Calendar, trace: seq<Schedule>, steps: seq<Step>, base: nat, from: nat, n: nat)
    requires Run(cal, trace, steps) && SteadyRun(cal, trace, steps) && Onward(steps, base) && n <= |steps|
    requires Complete(cal, trace[0], base) && Since(trace[0], base, from)
    ensures Complete(cal, trace[n], base) && Since(trace[n], base, from) && trace[n].info.rule == trace[0].info.rule
  {
    hide Apply, Steady, Enabled, Complete, Since;
    if n > 0 {
      RunSince(cal, trace, steps, base, from, n - 1);
      CompleteIsSane(cal, trace[n - 1], base);
      StepSince(cal, trace[n - 1], steps[n - 1], base, from);
      StepKeepsComplete(cal, trace[n - 1], steps[n - 1], base);
    }
  }

  /**
   A schedule that is given another rule, start or state fires, from then on, exactly what
   its new timing has from the second of the edit on: nothing from before that second, and,
   up to its checkpoint, everything since. Whatever the old timing still owed does not fire.
   */
  lemma RetimedScheduleFires(cal: Calendar, s: Schedule, wanted: Info, editedAt: nat,
                             trace: seq<Schedule>, steps: seq<Step>, n: nat)
    requires Sane(s) && s.info.revision < U64_MAX && Retimes(s, wanted)
    requires Run(cal, trace, steps) && trace[0] == Edit(s, wanted, editedAt) && SteadyRun(cal, trace, steps)
    requires Onward(steps, editedAt) && n <= |steps|
    ensures |s.jobs| <= |trace[n].jobs|
    ensures forall t :: SecondOf(editedAt) <= t <= trace[n].checkpoint && 0 < t && cal.occurs(wanted.rule, t) ==>
              Job(wanted.rule, t) in trace[n].jobs
    ensures forall j :: |s.jobs| <= j < |trace[n].jobs| ==>
              trace[n].jobs[j].rule == wanted.rule && SecondOf(editedAt) <= trace[n].jobs[j].plannedAt
  {
    hide Apply, Steady, Enabled, Edit, Sane;
    EditIs(s, wanted, editedAt);
    EditStartsAfresh(cal, s, wanted, editedAt);
    var base := trace[0].checkpoint;
    assert Since(trace[0], base, |s.jobs|);
    RunSince(cal, trace, steps, base, |s.jobs|, n);
  }

  // ----- ticks and jobs -----

  /** A schedule that is off, archived or unreadable fires nothing and only follows the clock. */
  lemma DormantTick(cal: Calendar, s: Schedule, now: nat)
    requires !s.info.enabled || s.info.archived || !cal.parses(s.info.rule)
    ensures Scan(cal, s, now) == s.(checkpoint := now)
  {
  }

  /** A due run becomes a job exactly while the schedule is as it was when the run was listed, enabled and not archived. */
  lemma FireIff(s: Schedule, ok: bool)
    requires s.batch != [] && s.awaiting.None?
    ensures var t, due := Fire(s, ok), s.batch[0];
            if ok && s.info.revision == due.info.revision && s.info.enabled && !s.info.archived
            then t.jobs == s.jobs + [Job(due.info.rule, due.runAt)] && t.awaiting == Some(due) && t.batch == s.batch[1..]
                 && t.checkpoint == s.checkpoint
            else t.jobs == s.jobs && t.awaiting.None? && t.batch == [] && t.checkpoint == s.checkpoint
  {
  }

  /** The checkpoint of a job is stored only for the revision that listed it, and never goes back by it. */
  lemma AdvanceIs(s: Schedule)
    requires s.awaiting.Some?
    ensures var t, due := Advance(s), s.awaiting.value;
            && t.awaiting.None? && t.jobs == s.jobs && t.batch == s.batch && s.checkpoint <= t.checkpoint
            && (due.info.revision != s.info.revision ==> t.checkpoint == s.checkpoint)
            && (due.info.revision == s.info.revision ==>
                  due.checkpointAfter <= t.checkpoint && (t.checkpoint == s.checkpoint || t.checkpoint == due.checkpointAfter))
  {
  }

  // ----- restart -----

  /**
   A restarted schedule goes on from the latest run that was persisted under its rule text,
   or from the current second if that is later, and from nowhere else.
   */
  lemma {:induction false} RestoredGoesOnFrom(info: Info, persisted: seq<Job>, now: nat)
    ensures var c := Restored(info, persisted, now).checkpoint;
            && SecondOf(now) <= c + 1
            && (forall i :: 0 <= i < |persisted| && persisted[i].rule == info.rule ==> persisted[i].plannedAt <= c)
            && (c + 1 == SecondOf(now) || c == SecondOf(now) == 0
                || exists i :: 0 <= i < |persisted| && persisted[i].rule == info.rule && persisted[i].plannedAt == c)
  {
    FreshIsJustBefore(now);
    hide FreshCheckpoint;
    LatestIsOneOf(persisted, info.rule, FreshCheckpoint(now));
    forall i | 0 <= i < |persisted| && persisted[i].rule == info.rule
      ensures persisted[i].plannedAt <= Restored(info, persisted, now).checkpoint
    {
      LatestBounds(persisted, info.rule, FreshCheckpoint(now), i);
    }
  }

  lemma {:induction false} LatestIsOneOf(jobs: seq<Job>, rule: Rule, start: nat)
    ensures var c := LatestPlanned(jobs, rule, start);
            && start <= c
            && (c == start || exists i :: 0 <= i < |jobs| && jobs[i].rule == rule && jobs[i].plannedAt == c)
  {
    if jobs != [] {
      var front, last := jobs[..|jobs| - 1], jobs[|jobs| - 1];
      LatestIsOneOf(front, rule, start);
      var c := LatestPlanned(front, rule, start);
      if c != start {
        var i :| 0 <= i < |front| && front[i].rule == rule && front[i].plannedAt == c;
        assert jobs[i] == front[i];
      }
    }
  }
}
