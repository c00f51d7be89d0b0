/** Every occurrence gets a job, and only one, while a schedule's timing is left alone. */
module ScheduleSafety {
  import opened Basics
  import opened ScheduleModel

  // ----- the query -----

  ghost predicate Ascending(s: seq<nat>) {
    forall i, j :: 0 <= i < j < |s| ==> s[i] < s[j]
  }

  lemma {:induction false} BetweenLists(cal: Calendar, rule: Rule, lo: nat, hi: nat)
    ensures Ascending(Between(cal, rule, lo, hi))
    ensures forall t :: t in Between(cal, rule, lo, hi) <==> lo <= t <= hi && cal.occurs(rule, t)
    decreases hi
  {
    if hi != 0 {
      BetweenLists(cal, rule, lo, hi - 1);
      var below := Between(cal, rule, lo, hi - 1);
      assert forall i :: 0 <= i < |below| ==> below[i] in below;
    }
  }

  /** A query returns a slice of the occurrences from its lower bound on. */
  lemma QuerySlices(cal: Calendar, rule: Rule, from: nat, now: nat) returns (skip: nat)
    ensures var q := Query(cal, rule, from, now);
            var all := Between(cal, rule, from, SearchedUntil(cal, rule, from, now) + cal.reach);
            && skip + |q.runAt| <= |all| && q.runAt == all[skip..skip + |q.runAt|]
            && |q.runAt| <= BATCH && (if q.more then |q.runAt| == BATCH else skip + |q.runAt| == |all|)
            && (all != [] ==> skip == if all[0] <= from then 1 else 0)
  {
    hide Between;
    var all := Between(cal, rule, from, SearchedUntil(cal, rule, from, now) + cal.reach);
    skip := if all != [] && all[0] <= from then 1 else 0;
  }

  /** `runs` are the elements of an ascending list after `from`, cut at some point. */
  ghost predicate Slice(all: seq<nat>, runs: seq<nat>, skip: nat, from: nat) {
    && Ascending(all) && skip + |runs| <= |all| && runs == all[skip..skip + |runs|]
    && (all != [] ==> skip == if all[0] <= from then 1 else 0)
    && (forall i :: 0 <= i < |all| ==> from <= all[i])
  }

  lemma SliceIsNew(all: seq<nat>, runs: seq<nat>, skip: nat, from: nat)
    requires Slice(all, runs, skip, from)
    ensures Ascending(runs) && forall i :: 0 <= i < |runs| ==> runs[i] > from && runs[i] in all
  {
    assert forall i :: 0 <= i < |runs| ==> runs[i] == all[skip + i];
  }

  lemma SliceIsComplete(all: seq<nat>, runs: seq<nat>, skip: nat, from: nat, t: nat)
    requires Slice(all, runs, skip, from) && t in all && t > from
    requires skip + |runs| == |all| || (runs != [] && t <= runs[|runs| - 1])
    ensures t in runs
  {
    var i :| 0 <= i < |all| && all[i] == t;
    assert runs != [] ==> runs[|runs| - 1] == all[skip + |runs| - 1];
    assert skip <= i < skip + |runs|;
    assert runs[i - skip] == t;
  }

  /** What a query promises: new runs in order, all of them up to its end or to the last one listed. */
  lemma QueryLists(cal: Calendar, rule: Rule, from: nat, now: nat)
    ensures var q := Query(cal, rule, from, now); var end := SearchedUntil(cal, rule, from, now) + cal.reach;
            && Ascending(q.runAt)
            && (forall t :: t in q.runAt ==> from < t <= end && cal.occurs(rule, t))
            && |q.runAt| <= 16 && (q.more ==> |q.runAt| == 16)
            && (forall t | from < t <= end && cal.occurs(rule, t) :: !q.more || t <= q.runAt[|q.runAt| - 1] ==> t in q.runAt)
  {
    hide Between, Query, SearchedUntil, Slice, Ascending;
    var q, end := Query(cal, rule, from, now), SearchedUntil(cal, rule, from, now) + cal.reach;
    QueryIsNew(cal, rule, from, now);
    forall t | from < t <= end && cal.occurs(rule, t) && (!q.more || t <= q.runAt[|q.runAt| - 1])
      ensures t in q.runAt
    {
      QueryIsComplete(cal, rule, from, now, t);
    }
  }

  lemma QueryIsNew(cal: Calendar, rule: Rule, from: nat, now: nat)
    ensures var q := Query(cal, rule, from, now); var end := SearchedUntil(cal, rule, from, now) + cal.reach;
            && Ascending(q.runAt) && |q.runAt| <= 16 && (q.more ==> |q.runAt| == 16)
            && (forall t :: t in q.runAt ==> from < t <= end && cal.occurs(rule, t))
  {
    hide Between, Query, SearchedUntil, Slice, Ascending;
    var end := SearchedUntil(cal, rule, from, now) + cal.reach;
    var all, q := Between(cal, rule, from, end), Query(cal, rule, from, now);
    BetweenLists(cal, rule, from, end);
    var skip := QuerySlices(cal, rule, from, now);
    MakeSlice(all, q.runAt, skip, from);
    SliceIsNew(all, q.runAt, skip, from);
  }

  lemma QueryIsComplete(cal: Calendar, rule: Rule, from: nat, now: nat, t: nat)
    requires from < t <= SearchedUntil(cal, rule, from, now) + cal.reach && cal.occurs(rule, t)
    requires var q := Query(cal, rule, from, now); q.more ==> q.runAt != [] && t <= q.runAt[|q.runAt| - 1]
    ensures t in Query(cal, rule, from, now).runAt
  {
    hide Between, Query, SearchedUntil, Slice, Ascending;
    var end := SearchedUntil(cal, rule, from, now) + cal.reach;
    var all, q := Between(cal, rule, from, end), Query(cal, rule, from, now);
    BetweenLists(cal, rule, from, end);
    var skip := QuerySlices(cal, rule, from, now);
    MakeSlice(all, q.runAt, skip, from);
    SliceIsComplete(all, q.runAt, skip, from, t);
  }

  lemma MakeSlice(all: seq<nat>, runs: seq<nat>, skip: nat, from: nat)
    requires Ascending(all) && skip + |runs| <= |all| && runs == all[skip..skip + |runs|]
    requires all != [] ==> skip == if all[0] <= from then 1 else 0
    requires forall t :: t in all ==> from <= t
    ensures Slice(all, runs, skip, from)
  {
    assert forall i :: 0 <= i < |all| ==> all[i] in all;
  }

  /**
   The search horizon is the one thing that makes a tick skip: with the whole batch
   created, every occurrence up to the new checkpoint was listed, exactly if the
   query stopped early or no occurrence lies between the end of the search and now.
   */
  lemma TickSkipsNothingIff(cal: Calendar, rule: Rule, from: nat, now: nat)
    ensures var q := Query(cal, rule, from, now); var final := NextCheckpoint(now, q);
            (forall t :: from < t <= final && cal.occurs(rule, t) ==> t in q.runAt) <==> Searched(cal, rule, from, now)
  {
    hide Query;
    QueryLists(cal, rule, from, now);
    var q := Query(cal, rule, from, now);
    if q.more {
      assert q.runAt[|q.runAt| - 1] in q.runAt;
    }
  }

  ghost predicate Searched(cal: Calendar, rule: Rule, from: nat, now: nat) {
    || Query(cal, rule, from, now).more
    || forall t :: SearchedUntil(cal, rule, from, now) + cal.reach < t <= now && from < t ==> !cal.occurs(rule, t)
  }

  /** A tick within the horizon of the checkpoint always searches far enough. */
  lemma WithinHorizonIsSearched(cal: Calendar, rule: Rule, from: nat, now: nat)
    requires now <= SaturatingAdd(from, cal.horizon(rule))
    ensures Searched(cal, rule, from, now)
  {
    hide Query;
  }

  // ----- runs -----

  datatype Step =
    | Tick(now: nat)
    | Fires(ok: bool)
    | Advances
    | Edits(wanted: Info, now: nat)

  predicate Enabled(s: Schedule, step: Step) {
    match step
    case Tick(_) => s.batch == [] && s.awaiting.None?
    case Fires(_) => s.batch != [] && s.awaiting.None?
    case Advances => s.awaiting.Some?
    case Edits(_, _) => true
  }

  function Apply(cal: Calendar, s: Schedule, step: Step): Schedule
    requires Enabled(s, step)
  {
    match step
    case Tick(now) => Scan(cal, s, now)
    case Fires(ok) => Fire(s, ok)
    case Advances => Advance(s)
    case Edits(wanted, now) => Edit(s, wanted, now)
  }

  /** The schedule stays enabled with its timing unchanged, and every tick searches up to now. */
  ghost predicate Steady(cal: Calendar, s: Schedule, step: Step) {
    && Runnable(cal, s.info)
    && s.info.revision < U64_MAX
    && (step.Tick? ==> Searched(cal, s.info.rule, s.checkpoint, step.now))
    && (step.Edits? ==> SameTiming(step.wanted, s.info))
  }

  /** The run times still owed: the job awaiting its checkpoint, then the batch. */
  ghost function Owed(s: Schedule): seq<Due> {
    (if s.awaiting.Some? then [s.awaiting.value] else []) + s.batch
  }

  ghost predicate Current(s: Schedule, due: Due) {
    due.info.revision == s.info.revision
  }

  /** Owed runs belong to one snapshot of the schedule, never newer than the schedule. */
  ghost predicate Snapshot(s: Schedule) {
    && (forall i :: 0 <= i < |Owed(s)| ==> Owed(s)[i].info.revision <= s.info.revision)
    && (forall i :: 0 <= i < |Owed(s)| ==> Owed(s)[i].info == Owed(s)[0].info)
    && (forall i :: 0 <= i < |Owed(s)| - 1 ==> Owed(s)[i].runAt <= Owed(s)[i].checkpointAfter)
    && (forall i :: 0 <= i < |Owed(s)| && Current(s, Owed(s)[i]) ==> Owed(s)[i].info.rule == s.info.rule)
  }

  /** Up to the checkpoint an owed run would store, every occurrence is owed no later than it. */
  ghost predicate OwedComplete(cal: Calendar, s: Schedule) {
    forall i, t :: 0 <= i < |Owed(s)| && Current(s, Owed(s)[i])
                   && s.checkpoint < t <= Owed(s)[i].checkpointAfter && cal.occurs(s.info.rule, t) ==>
      Within(Owed(s), i, t)
  }

  /** A run at `t` is owed at position `i` or before. */
  ghost predicate Within(owed: seq<Due>, i: nat, t: nat) {
    exists k :: 0 <= k <= i && k < |owed| && owed[k].runAt == t
  }

  /** Every occurrence after `base` and up to the checkpoint has had a job. */
  ghost predicate AllFired(cal: Calendar, s: Schedule, base: nat) {
    forall t :: base < t <= s.checkpoint && cal.occurs(s.info.rule, t) ==> Job(s.info.rule, t) in s.jobs
  }

  ghost predicate Complete(cal: Calendar, s: Schedule, base: nat) {
    && Snapshot(s)
    && OwedComplete(cal, s)
    && AllFired(cal, s, base)
    && (s.awaiting.Some? ==> Job(s.awaiting.value.info.rule, s.awaiting.value.runAt) in s.jobs)
  }

  /** A batch taken from a complete listing owes every occurrence no later than it should. */
  lemma BatchIsComplete(runs: Runs, info: Info, final: nat, x: nat, i: nat)
    requires Ascending(runs.runAt) && i < |runs.runAt|
    requires x <= DueRuns(info, runs, final)[i].checkpointAfter && x in runs.runAt
    ensures Within(DueRuns(info, runs, final), i, x)
  {
    var k :| 0 <= k < |runs.runAt| && runs.runAt[k] == x;
    assert k <= i;
    assert DueRuns(info, runs, final)[k].runAt == x;
  }

  lemma TickKeepsComplete(cal: Calendar, s: Schedule, now: nat, base: nat)
    requires Complete(cal, s, base) && Enabled(s, Tick(now)) && Steady(cal, s, Tick(now))
    ensures Complete(cal, Scan(cal, s, now), base)
  {
    hide Query, SearchedUntil, Searched, DueRuns, NextCheckpoint, Within, Ascending, Snapshot, OwedComplete;
    var q := Query(cal, s.info.rule, s.checkpoint, now);
    if q.runAt == [] {
      TickSkipsNothingIff(cal, s.info.rule, s.checkpoint, now);
      assert Owed(Scan(cal, s, now)) == [];
      NothingOwed(cal, Scan(cal, s, now));
    } else {
      TickOwes(cal, s, now);
      TickSnapshot(cal, s, now);
    }
  }

  lemma NothingOwed(cal: Calendar, s: Schedule)
    requires Owed(s) == []
    ensures Snapshot(s) && OwedComplete(cal, s)
  {
  }

  lemma TickSnapshot(cal: Calendar, s: Schedule, now: nat)
    requires Enabled(s, Tick(now)) && Runnable(cal, s.info) && Query(cal, s.info.rule, s.checkpoint, now).runAt != []
    ensures Snapshot(Scan(cal, s, now))
  {
    hide Query, DueRuns, NextCheckpoint;
    var q := Query(cal, s.info.rule, s.checkpoint, now);
    var t, final := Scan(cal, s, now), NextCheckpoint(now, q);
    assert Owed(t) == t.batch == DueRuns(s.info, q, final);
    DueFacts(s.info, q, final);
  }

  lemma TickOwes(cal: Calendar, s: Schedule, now: nat)
    requires Enabled(s, Tick(now)) && Steady(cal, s, Tick(now)) && Query(cal, s.info.rule, s.checkpoint, now).runAt != []
    ensures OwedComplete(cal, Scan(cal, s, now))
  {
    hide Query, SearchedUntil, Searched, DueRuns, NextCheckpoint, Within;
    var q := Query(cal, s.info.rule, s.checkpoint, now);
    QueryIsNew(cal, s.info.rule, s.checkpoint, now);
    TickSkipsNothingIff(cal, s.info.rule, s.checkpoint, now);
    var t, final := Scan(cal, s, now), NextCheckpoint(now, q);
    assert Owed(t) == t.batch == DueRuns(s.info, q, final);
    LastIsFinal(q, final, now);
    DueFacts(s.info, q, final);
    forall i, x | 0 <= i < |Owed(t)| && t.checkpoint < x <= Owed(t)[i].checkpointAfter && cal.occurs(t.info.rule, x)
      ensures Within(Owed(t), i, x)
    {
      if i + 1 < |q.runAt| {
        EarlierIsListed(cal, s.info.rule, s.checkpoint, now, i, x);
      }
      BatchIsComplete(q, s.info, final, x, i);
    }
  }

  /** An occurrence no later than one that is listed is listed. */
  lemma EarlierIsListed(cal: Calendar, rule: Rule, from: nat, now: nat, i: nat, x: nat)
    requires var q := Query(cal, rule, from, now); i < |q.runAt| && from < x <= q.runAt[i] && cal.occurs(rule, x)
    ensures x in Query(cal, rule, from, now).runAt
  {
    hide Query, SearchedUntil;
    var q := Query(cal, rule, from, now);
    QueryIsNew(cal, rule, from, now);
    assert q.runAt[i] in q.runAt && q.runAt[i] <= q.runAt[|q.runAt| - 1];
    QueryIsComplete(cal, rule, from, now, x);
  }

  lemma DueFacts(info: Info, q: Runs, final: nat)
    ensures var d := DueRuns(info, q, final);
            && |d| == |q.runAt|
            && (forall i :: 0 <= i < |d| ==> d[i].info == info && d[i].runAt == q.runAt[i])
            && (forall i :: 0 <= i < |d| ==> d[i].checkpointAfter == if i + 1 == |d| then final else q.runAt[i])
  {
  }

  lemma LastIsFinal(q: Runs, final: nat, now: nat)
    requires q.runAt != [] && final == NextCheckpoint(now, q) && Ascending(q.runAt)
    ensures final == if q.more then q.runAt[|q.runAt| - 1] else now
    ensures forall i :: 0 <= i < |q.runAt| ==> q.runAt[i] <= q.runAt[|q.runAt| - 1]
  {
  }

  lemma FireKeepsComplete(cal: Calendar, s: Schedule, ok: bool, base: nat)
    requires Complete(cal, s, base) && Enabled(s, Fires(ok))
    ensures Complete(cal, Fire(s, ok), base)
  {
    var t := Fire(s, ok);
    if t.batch != [] || t.awaiting.Some? {
      assert Owed(t) == Owed(s);
    } else {
      assert Owed(t) == [];
    }
  }

  lemma AdvanceShifts(s: Schedule)
    requires s.awaiting.Some?
    ensures Owed(Advance(s)) == Owed(s)[1..] && Owed(s) == [s.awaiting.value] + Owed(s)[1..]
  {
  }

  lemma AdvanceKeepsSnapshot(s: Schedule)
    requires Snapshot(s) && s.awaiting.Some?
    ensures Snapshot(Advance(s))
  {
    hide Owed;
    AdvanceShifts(s);
    var owed := Owed(s);
    assert forall i :: 0 <= i < |owed| - 1 ==> owed[1..][i] == owed[i + 1];
  }

  lemma AdvanceKeepsOwed(cal: Calendar, s: Schedule)
    requires Snapshot(s) && OwedComplete(cal, s) && s.awaiting.Some?
    ensures OwedComplete(cal, Advance(s))
  {
    hide Owed;
    AdvanceShifts(s);
    var t, owed := Advance(s), Owed(s);
    var rest := owed[1..];
    forall i, x | 0 <= i < |rest| && Current(t, rest[i])
                  && t.checkpoint < x <= rest[i].checkpointAfter && cal.occurs(t.info.rule, x)
      ensures Within(rest, i, x)
    {
      assert rest[i] == owed[i + 1];
      assert Within(owed, i + 1, x);
      var k :| 0 <= k <= i + 1 && k < |owed| && owed[k].runAt == x;
      assert owed[0].runAt <= owed[0].checkpointAfter <= t.checkpoint;
      assert rest[k - 1].runAt == x;
    }
  }

  lemma AdvanceKeepsComplete(cal: Calendar, s: Schedule, base: nat)
    requires Complete(cal, s, base) && Enabled(s, Advances)
    ensures Complete(cal, Advance(s), base)
  {
    AdvanceKeepsSnapshot(s);
    AdvanceKeepsOwed(cal, s);
    AdvanceKeepsFired(cal, s, base);
    hide Snapshot, OwedComplete, AllFired;
  }

  lemma AdvanceKeepsFired(cal: Calendar, s: Schedule, base: nat)
    requires Complete(cal, s, base) && s.awaiting.Some?
    ensures AllFired(cal, Advance(s), base)
  {
    hide Owed;
    AdvanceShifts(s);
    var t := Advance(s);
    forall x | s.checkpoint < x <= t.checkpoint && cal.occurs(s.info.rule, x)
      ensures Job(s.info.rule, x) in s.jobs
    {
      assert Current(s, Owed(s)[0]);
      assert Within(Owed(s), 0, x);
    }
  }

  lemma EditKeepsComplete(cal: Calendar, s: Schedule, wanted: Info, now: nat, base: nat)
    requires Complete(cal, s, base) && Steady(cal, s, Edits(wanted, now))
    ensures Complete(cal, Edit(s, wanted, now), base)
  {
    assert Owed(Edit(s, wanted, now)) == Owed(s);
  }

  lemma StepKeepsComplete(cal: Calendar, s: Schedule, step: Step, base: nat)
    requires Complete(cal, s, base) && Enabled(s, step) && Steady(cal, s, step)
    ensures Complete(cal, Apply(cal, s, step), base)
  {
    hide Complete, Scan, Fire, Advance, Edit, Steady;
    match step
    case Tick(now) => TickKeepsComplete(cal, s, now, base);
    case Fires(ok) => FireKeepsComplete(cal, s, ok, base);
    case Advances => AdvanceKeepsComplete(cal, s, base);
    case Edits(wanted, now) => EditKeepsComplete(cal, s, wanted, now, base);
  }

  ghost predicate Run(cal: Calendar, trace: seq<Schedule>, steps: seq<Step>) {
    && |trace| == |steps| + 1
    && forall i :: 0 <= i < |steps| ==> Enabled(trace[i], steps[i]) && trace[i + 1] == Apply(cal, trace[i], steps[i])
  }

  ghost predicate SteadyRun(cal: Calendar, trace: seq<Schedule>, steps: seq<Step>)
    requires Run(cal, trace, steps)
  {
    forall i :: 0 <= i < |steps| ==> Steady(cal, trace[i], steps[i])
  }

  /** A schedule between ticks, with no job outstanding: newly created, retimed or restored. */
  ghost predicate Idle(s: Schedule) {
    s.batch == [] && s.awaiting.None?
  }

  /**
   Through batches, failures in mid-batch and edits that leave timing alone, every
   occurrence after the starting checkpoint and up to the present one has had a job.
   */
  lemma {:induction false} EveryOccurrenceFires(cal: Calendar, trace: seq<Schedule>, steps: seq<Step>, n: nat)
    requires Run(cal, trace, steps) && SteadyRun(cal, trace, steps) && Idle(trace[0]) && n <= |steps|
    ensures Complete(cal, trace[n], trace[0].checkpoint)
    ensures AllFired(cal, trace[n], trace[0].checkpoint)
  {
    hide Apply, Steady, Enabled, OwedComplete;
    if n == 0 {
      IdleIsComplete(cal, trace[0]);
    } else {
      EveryOccurrenceFires(cal, trace, steps, n - 1);
      StepKeepsComplete(cal, trace[n - 1], steps[n - 1], trace[0].checkpoint);
    }
  }

  lemma IdleIsComplete(cal: Calendar, s: Schedule)
    requires Idle(s)
    ensures Complete(cal, s, s.checkpoint)
  {
    assert Owed(s) == [];
  }

  // ----- at most once -----

  /** The clock of a run: the time of its latest tick. */
  ghost predicate Clocked(s: Schedule, step: Step, clock: nat) {
    step.Tick? ==> clock <= step.now
  }

  /** No edit lands between a job's creation and its checkpoint. */
  ghost predicate Undisturbed(s: Schedule, step: Step) {
    step.Edits? ==> s.awaiting.None?
  }

  /** The library's bound does not bring a run in a millisecond early. */
  ghost predicate EdgeFree(cal: Calendar, s: Schedule, step: Step) {
    step.Tick? ==> cal.reach == 0 || !cal.occurs(s.info.rule, step.now + 1)
  }

  function ClockAfter(step: Step, clock: nat): nat {
    if step.Tick? then step.now else clock
  }

  /** Owed runs lie after the checkpoint, in order, and store checkpoints that reach them but not the future. */
  ghost predicate OwedAhead(s: Schedule, clock: nat) {
    && s.checkpoint <= clock
    && (forall i :: 0 <= i < |Owed(s)| && Current(s, Owed(s)[i]) ==>
          s.checkpoint < Owed(s)[i].runAt <= Owed(s)[i].checkpointAfter <= clock)
    && (forall i, j :: 0 <= i < j < |Owed(s)| && Current(s, Owed(s)[j]) ==> Owed(s)[i].checkpointAfter < Owed(s)[j].runAt)
  }

  /** Jobs of this rule are all at or below the checkpoint, save the one awaiting it. */
  ghost predicate JobsBehind(s: Schedule) {
    && (s.awaiting.Some? ==> Current(s, s.awaiting.value))
    && (forall i :: 0 <= i < |s.jobs| && s.jobs[i].rule == s.info.rule ==>
          s.jobs[i].plannedAt <= if s.awaiting.Some? then s.awaiting.value.runAt else s.checkpoint)
  }

  ghost predicate Once(s: Schedule, clock: nat) {
    Snapshot(s) && OwedAhead(s, clock) && JobsBehind(s)
  }

  lemma TickKeepsOnce(cal: Calendar, s: Schedule, now: nat, clock: nat)
    requires Once(s, clock) && Enabled(s, Tick(now)) && Steady(cal, s, Tick(now))
    requires Clocked(s, Tick(now), clock) && EdgeFree(cal, s, Tick(now)) && cal.reach <= 1
    ensures Once(Scan(cal, s, now), now)
  {
    hide Query, Searched;
    var q := Query(cal, s.info.rule, s.checkpoint, now);
    QueryLists(cal, s.info.rule, s.checkpoint, now);
    var t := Scan(cal, s, now);
    if q.runAt != [] {
      assert Owed(t) == t.batch;
      forall i | 0 <= i < |q.runAt|
        ensures s.checkpoint < q.runAt[i] <= now
      {
        assert q.runAt[i] in q.runAt;
      }
      BatchIsAhead(s, q, NextCheckpoint(now, q), now);
    } else {
      assert Owed(t) == [];
    }
  }

  lemma BatchIsAhead(s: Schedule, q: Runs, final: nat, now: nat)
    requires Idle(s) && JobsBehind(s) && s.checkpoint <= now
    requires q.runAt != [] && Ascending(q.runAt) && final == NextCheckpoint(now, q)
    requires forall i :: 0 <= i < |q.runAt| ==> s.checkpoint < q.runAt[i] <= now
    ensures Once(s.(batch := DueRuns(s.info, q, final)), now)
  {
    hide DueRuns, NextCheckpoint, Owed;
    var t, d := s.(batch := DueRuns(s.info, q, final)), DueRuns(s.info, q, final);
    OwedOfBatch(s, d);
    LastIsFinal(q, final, now);
    DueFacts(s.info, q, final);
    BatchOrder(d, q, final, now);
    assert JobsBehind(t);
  }

  lemma OwedOfBatch(s: Schedule, d: seq<Due>)
    requires s.awaiting.None?
    ensures Owed(s.(batch := d)) == d
  {
  }

  lemma BatchOrder(d: seq<Due>, q: Runs, final: nat, now: nat)
    requires |d| == |q.runAt| && Ascending(q.runAt)
    requires forall i :: 0 <= i < |d| ==> d[i].runAt == q.runAt[i] <= now
    requires forall i :: 0 <= i < |d| ==> d[i].checkpointAfter == if i + 1 == |d| then final else q.runAt[i]
    requires |d| > 0 ==> d[|d| - 1].runAt <= final <= now
    ensures forall i :: 0 <= i < |d| ==> d[i].runAt <= d[i].checkpointAfter <= now
    ensures forall i, j :: 0 <= i < j < |d| ==> d[i].checkpointAfter < d[j].runAt
  {
  }

  lemma FireKeepsOnce(s: Schedule, ok: bool, clock: nat)
    requires Once(s, clock) && Enabled(s, Fires(ok))
    ensures Once(Fire(s, ok), clock)
    ensures var t := Fire(s, ok);
            t.jobs == s.jobs || (exists x: nat :: t.jobs == s.jobs + [Job(s.info.rule, x)] && x > s.checkpoint)
  {
    var t := Fire(s, ok);
    if t.awaiting.Some? {
      assert Owed(t) == Owed(s);
      assert Owed(s)[0] == s.batch[0];
      assert t.jobs == s.jobs + [Job(s.info.rule, s.batch[0].runAt)];
    } else {
      assert Owed(t) == [];
    }
  }

  lemma AdvanceKeepsOnce(s: Schedule, clock: nat)
    requires Once(s, clock) && Enabled(s, Advances)
    ensures Once(Advance(s), clock)
  {
    hide Owed, Snapshot, OwedAhead;
    AdvanceKeepsSnapshot(s);
    AdvanceKeepsAhead(s, clock);
  }

  lemma AdvanceKeepsAhead(s: Schedule, clock: nat)
    requires Once(s, clock) && s.awaiting.Some?
    ensures Advance(s).checkpoint == s.awaiting.value.checkpointAfter && s.awaiting.value.runAt <= Advance(s).checkpoint
    ensures OwedAhead(Advance(s), clock)
  {
    hide Owed, Snapshot, JobsBehind;
    AwaitingIsCurrent(s, clock);
    AdvanceShifts(s);
    var owed := Owed(s);
    var t, rest := Advance(s), owed[1..];
    assert owed[0] == s.awaiting.value;
    assert t.checkpoint == owed[0].checkpointAfter;
    forall i | 0 <= i < |rest| && Current(t, rest[i])
      ensures t.checkpoint < rest[i].runAt <= rest[i].checkpointAfter <= clock
    {
      assert rest[i] == owed[i + 1];
    }
    forall i, j | 0 <= i < j < |rest| && Current(t, rest[j])
      ensures rest[i].checkpointAfter < rest[j].runAt
    {
      assert rest[i] == owed[i + 1] && rest[j] == owed[j + 1];
    }
  }

  lemma AwaitingIsCurrent(s: Schedule, clock: nat)
    requires Once(s, clock) && s.awaiting.Some?
    ensures Current(s, s.awaiting.value)
  {
  }

  lemma EditKeepsOnce(cal: Calendar, s: Schedule, wanted: Info, now: nat, clock: nat)
    requires Once(s, clock) && Steady(cal, s, Edits(wanted, now)) && Undisturbed(s, Edits(wanted, now))
    ensures Once(Edit(s, wanted, now), clock)
  {
    assert Owed(Edit(s, wanted, now)) == Owed(s);
  }

  /** What "at most once" needs of a step. */
  ghost predicate Careful(cal: Calendar, s: Schedule, step: Step, clock: nat) {
    Steady(cal, s, step) && Clocked(s, step, clock) && Undisturbed(s, step) && EdgeFree(cal, s, step)
  }

  /** A step keeps the invariant, never takes the checkpoint back, and only adds jobs beyond it. */
  lemma StepKeepsOnce(cal: Calendar, s: Schedule, step: Step, clock: nat)
    requires Once(s, clock) && Enabled(s, step) && Careful(cal, s, step, clock) && cal.reach <= 1
    ensures var t := Apply(cal, s, step);
            && Once(t, ClockAfter(step, clock)) && t.info.rule == s.info.rule
            && (t.jobs == s.jobs ||
                (s.awaiting.None? && exists x: nat :: t.jobs == s.jobs + [Job(s.info.rule, x)] && x > s.checkpoint))
  {
    hide Once, Steady;
    match step
    case Tick(now) => TickKeepsOnce(cal, s, now, clock);
    case Fires(ok) => FireKeepsOnce(s, ok, clock);
    case Advances => AdvanceKeepsOnce(s, clock);
    case Edits(wanted, now) =>
      EditKeepsOnce(cal, s, wanted, now, clock);
      EditKeepsRule(cal, s, wanted, now);
  }

  lemma EditKeepsRule(cal: Calendar, s: Schedule, wanted: Info, now: nat)
    requires Steady(cal, s, Edits(wanted, now))
    ensures Edit(s, wanted, now).info.rule == s.info.rule
  {
  }

  /** The clock after the first `n` steps. */
  function ClockAt(steps: seq<Step>, n: nat, clock: nat): nat
    requires n <= |steps|
  {
    if n == 0 then clock else ClockAfter(steps[n - 1], ClockAt(steps, n - 1, clock))
  }

  ghost predicate CarefulRun(cal: Calendar, trace: seq<Schedule>, steps: seq<Step>, clock: nat)
    requires Run(cal, trace, steps)
  {
    forall i :: 0 <= i < |steps| ==> Careful(cal, trace[i], steps[i], ClockAt(steps, i, clock))
  }

  /** From job `from` on, every job of this rule is planned after every earlier one: none is repeated. */
  ghost predicate NoRepeats(jobs: seq<Job>, from: nat, rule: Rule) {
    forall i, j :: from <= j < |jobs| && 0 <= i < j && jobs[i].rule == rule ==>
      jobs[j].rule == rule && jobs[i].plannedAt < jobs[j].plannedAt
  }

  lemma NewJobIsNew(jobs: seq<Job>, from: nat, rule: Rule, x: nat)
    requires from <= |jobs| && NoRepeats(jobs, from, rule)
    requires forall i :: 0 <= i < |jobs| && jobs[i].rule == rule ==> jobs[i].plannedAt < x
    ensures NoRepeats(jobs + [Job(rule, x)], from, rule)
  {
  }

  /**
   With a clock that does not run back and no edit between a job's creation and its
   checkpoint, no occurrence fires twice, whatever fails in between.
   */
  lemma {:induction false} NoOccurrenceFiresTwice(
    cal: Calendar, trace: seq<Schedule>, steps: seq<Step>, clock: nat, n: nat)
    requires Run(cal, trace, steps) && CarefulRun(cal, trace, steps, clock) && cal.reach <= 1 && n <= |steps|
    requires Idle(trace[0]) && Once(trace[0], clock)
    ensures Once(trace[n], ClockAt(steps, n, clock)) && trace[n].info.rule == trace[0].info.rule
    ensures |trace[0].jobs| <= |trace[n].jobs|
    ensures NoRepeats(trace[n].jobs, |trace[0].jobs|, trace[0].info.rule)
  {
    hide Apply, Enabled, Careful, Snapshot, OwedAhead;
    if n != 0 {
      NoOccurrenceFiresTwice(cal, trace, steps, clock, n - 1);
      var s, t := trace[n - 1], trace[n];
      StepKeepsOnce(cal, s, steps[n - 1], ClockAt(steps, n - 1, clock));
      if t.jobs != s.jobs {
        var x: nat :| t.jobs == s.jobs + [Job(s.info.rule, x)] && x > s.checkpoint;
        NewJobIsNew(s.jobs, |trace[0].jobs|, s.info.rule, x);
      }
    }
  }

  // ----- restart -----

  lemma {:induction false} LatestBounds(jobs: seq<Job>, rule: Rule, start: nat, i: nat)
    requires i < |jobs| && jobs[i].rule == rule
    ensures jobs[i].plannedAt <= LatestPlanned(jobs, rule, start)
  {
    if i < |jobs| - 1 {
      LatestBounds(jobs[..|jobs| - 1], rule, start, i);
    }
  }

  /** The latest moment a restarted schedule knows of: its clock, or a run persisted for later. */
  function RestartClock(info: Info, persisted: seq<Job>, now: nat): nat {
    Max(now, Restored(info, persisted, now).checkpoint)
  }

  /** A restored schedule starts with every persisted run of its rule text behind its checkpoint. */
  lemma RestoredIsOnce(info: Info, persisted: seq<Job>, now: nat)
    ensures Idle(Restored(info, persisted, now))
    ensures Once(Restored(info, persisted, now), RestartClock(info, persisted, now))
  {
    var s := Restored(info, persisted, now);
    assert Owed(s) == [];
    forall i | 0 <= i < |persisted| && persisted[i].rule == info.rule
      ensures persisted[i].plannedAt <= s.checkpoint
    {
      LatestBounds(persisted, info.rule, FreshCheckpoint(now), i);
    }
  }

  /**
   After a restart, no run whose job was persisted under the same rule text fires again,
   nor any other twice, unless a tick comes before a run that was persisted already.
   */
  lemma RestartDoesNotRefire(
    cal: Calendar, info: Info, persisted: seq<Job>, now: nat, trace: seq<Schedule>, steps: seq<Step>, n: nat)
    requires Run(cal, trace, steps) && cal.reach <= 1 && n <= |steps|
    requires trace[0] == Restored(info, persisted, now)
    requires CarefulRun(cal, trace, steps, RestartClock(info, persisted, now))
    ensures |persisted| <= |trace[n].jobs| && NoRepeats(trace[n].jobs, |persisted|, info.rule)
  {
    hide Restored, RestartClock, Once, NoRepeats, CarefulRun, Idle;
    RestoredIsOnce(info, persisted, now);
    RestoredFacts(info, persisted, now);
    NoOccurrenceFiresTwice(cal, trace, steps, RestartClock(info, persisted, now), n);
  }

  lemma RestoredFacts(info: Info, persisted: seq<Job>, now: nat)
    ensures Restored(info, persisted, now).jobs == persisted && Restored(info, persisted, now).info == info
  {
  }

  // ----- what the conditions are for -----

  /** The rest of a batch after an edit: its next run is refused by the revision guard and the rest given up. */
  function Abandon(s: Schedule, ok: bool): Schedule
    requires s.awaiting.None?
  {
    if s.batch == [] then s else Fire(s, ok)
  }

  /** An edit while a job awaits its checkpoint leaves its run due: the next tick lists it first. */
  lemma EditInFlightRelists(
    cal: Calendar, s: Schedule, wanted: Info, editedAt: nat, ok: bool, now: nat, base: nat, clock: nat)
    requires Complete(cal, s, base) && Once(s, clock) && s.awaiting.Some?
    requires Steady(cal, s, Edits(wanted, editedAt))
    requires cal.occurs(s.info.rule, s.awaiting.value.runAt)
    requires s.awaiting.value.runAt <= now <= SaturatingAdd(s.checkpoint, cal.horizon(s.info.rule))
    ensures var t := Abandon(Advance(Edit(s, wanted, editedAt)), ok);
            var later := Scan(cal, t, now);
            && later.batch != [] && later.batch[0].runAt == s.awaiting.value.runAt && later.batch[0].info == later.info
            && later.awaiting.None? && later.jobs == s.jobs
            && later.info.rule == s.info.rule && later.info.enabled && !later.info.archived
  {
    hide Query, DueRuns;
    var due := s.awaiting.value;
    assert Owed(s) == [due] + s.batch && Current(s, Owed(s)[0]);
    var t := Abandon(Advance(Edit(s, wanted, editedAt)), ok);
    assert s.batch != [] ==> s.batch[0] == Owed(s)[1];
    assert t.checkpoint == s.checkpoint && t.info.rule == s.info.rule && t.batch == [];
    QueryLists(cal, t.info.rule, t.checkpoint, now);
    var q := Query(cal, t.info.rule, t.checkpoint, now);
    forall x | s.checkpoint < x <= due.checkpointAfter && cal.occurs(s.info.rule, x)
      ensures x == due.runAt
    {
      assert Within(Owed(s), 0, x);
    }
    FirstIsListed(cal, s.info.rule, q, s.checkpoint, due.runAt);
    DueFacts(t.info, q, NextCheckpoint(now, q));
  }

  /** A job is created, the schedule is edited before the checkpoint is stored, the rest is given up, and the next tick fires. */
  function EditedInFlight(
    cal: Calendar, s: Schedule, wanted: Info, editedAt: nat, ok: bool, now: nat): Schedule
    requires s.batch != [] && s.awaiting.None? && GuardHolds(s.info, s.batch[0])
  {
    Scan(cal, Abandon(Advance(Edit(Fire(s, true), wanted, editedAt)), ok), now)
  }

  /**
   Any edit that lands between a job's creation and its checkpoint makes the next tick
   create the same job again: the condition of the theorem cannot be dropped.
   */
  lemma EditInFlightRefires(
    cal: Calendar, s: Schedule, wanted: Info, editedAt: nat, ok: bool, now: nat, base: nat, clock: nat)
    requires Complete(cal, s, base) && Once(s, clock)
    requires s.batch != [] && s.awaiting.None? && GuardHolds(s.info, s.batch[0])
    requires Steady(cal, Fire(s, true), Edits(wanted, editedAt))
    requires cal.occurs(s.info.rule, s.batch[0].runAt)
    requires s.batch[0].runAt <= now <= SaturatingAdd(s.checkpoint, cal.horizon(s.info.rule))
    ensures var later := EditedInFlight(cal, s, wanted, editedAt, ok, now);
            var job := Job(s.info.rule, s.batch[0].runAt);
            && later.batch != [] && later.awaiting.None?
            && Fire(later, true).jobs == s.jobs + [job, job]
            && !NoRepeats(Fire(later, true).jobs, |s.jobs|, s.info.rule)
  {
    hide Complete, Steady, Scan, Abandon, Advance, Edit, Snapshot, OwedAhead, JobsBehind;
    FireKeepsComplete(cal, s, true, base);
    FireKeepsOnce(s, true, clock);
    GuardedIsCurrent(s, clock);
    var fired := Fire(s, true);
    EditInFlightRelists(cal, fired, wanted, editedAt, ok, now, base, clock);
    var later := EditedInFlight(cal, s, wanted, editedAt, ok, now);
    var job := Job(s.info.rule, s.batch[0].runAt);
    assert s.jobs + [job] + [job] == s.jobs + [job, job];
    var all := Fire(later, true).jobs;
    assert all[|s.jobs|] == job && all[|s.jobs| + 1] == job;
  }

  /** A due run that passes the revision guard carries the schedule's own rule. */
  lemma GuardedIsCurrent(s: Schedule, clock: nat)
    requires Once(s, clock) && s.batch != [] && s.awaiting.None? && GuardHolds(s.info, s.batch[0])
    ensures s.batch[0].info.rule == s.info.rule
  {
    assert Owed(s)[0] == s.batch[0];
  }

  /** A tick before the checkpoint, as after a clock that stepped back, takes the checkpoint back to it. */
  lemma EarlyTickTakesCheckpointBack(cal: Calendar, s: Schedule, now: nat)
    requires now + cal.reach <= s.checkpoint
    ensures Scan(cal, s, now) == s.(checkpoint := now)
  {
    hide Query;
    EarlyQueryIsEmpty(cal, s.info.rule, s.checkpoint, now);
  }

  lemma EarlyQueryIsEmpty(cal: Calendar, rule: Rule, from: nat, now: nat)
    requires now + cal.reach <= from
    ensures Query(cal, rule, from, now) == Runs([], false)
  {
    hide Query;
    var q := Query(cal, rule, from, now);
    assert q.runAt != [] ==> q.runAt[0] in q.runAt;
    QueryLists(cal, rule, from, now);
  }

  /**
   Such a tick makes every run between it and the old checkpoint due again: the first of
   them, whose job exists, fires a second time at the next tick past it.
   */
  lemma EarlyTickRefires(cal: Calendar, s: Schedule, early: nat, now: nat, run: nat)
    requires Idle(s) && Runnable(cal, s.info) && early + cal.reach <= s.checkpoint
    requires early < run <= s.checkpoint && cal.occurs(s.info.rule, run)
    requires forall x :: early < x < run ==> !cal.occurs(s.info.rule, x)
    requires run <= now <= SaturatingAdd(early, cal.horizon(s.info.rule))
    ensures var later := Scan(cal, Scan(cal, s, early), now);
            && later.batch != [] && later.awaiting.None?
            && Fire(later, true).jobs == s.jobs + [Job(s.info.rule, run)]
  {
    hide Query, DueRuns;
    EarlyTickTakesCheckpointBack(cal, s, early);
    var t := Scan(cal, s, early);
    QueryLists(cal, t.info.rule, early, now);
    var q := Query(cal, t.info.rule, early, now);
    FirstIsListed(cal, s.info.rule, q, early, run);
    DueFacts(t.info, q, NextCheckpoint(now, q));
  }

  /** A run that is the first occurrence after the checkpoint heads the listing. */
  lemma FirstIsListed(cal: Calendar, rule: Rule, q: Runs, checkpoint: nat, run: nat)
    requires forall x :: checkpoint < x <= run && cal.occurs(rule, x) ==> x == run
    requires Ascending(q.runAt) && (q.more ==> q.runAt != [])
    requires forall x :: x in q.runAt ==> checkpoint < x && cal.occurs(rule, x)
    requires !q.more || run <= q.runAt[|q.runAt| - 1] ==> run in q.runAt
    ensures q.runAt != [] && q.runAt[0] == run
  {
    if q.more {
      assert q.runAt[|q.runAt| - 1] in q.runAt;
    }
    assert run in q.runAt;
    assert q.runAt[0] in q.runAt;
  }

  /**
   If the library's bound counts in the millisecond after the search, a run due
   exactly then fires at this tick and again at the next one.
   */
  lemma EdgeRunRefires(cal: Calendar, s: Schedule, now: nat, next: nat)
    requires Idle(s) && Runnable(cal, s.info) && s.checkpoint <= now
    requires Query(cal, s.info.rule, s.checkpoint, now) == Runs([now + 1], false)
    requires now < next <= SaturatingAdd(now, cal.horizon(s.info.rule))
    ensures var fired := Advance(Fire(Scan(cal, s, now), true));
            && fired.jobs == s.jobs + [Job(s.info.rule, now + 1)]
            && Scan(cal, fired, next).batch != [] && Scan(cal, fired, next).batch[0].runAt == now + 1
  {
    hide Query, DueRuns;
    QueryLists(cal, s.info.rule, s.checkpoint, now);
    DueFacts(s.info, Runs([now + 1], false), now);
    var fired := Advance(Fire(Scan(cal, s, now), true));
    assert now + 1 in Query(cal, s.info.rule, s.checkpoint, now).runAt;
    QueryLists(cal, s.info.rule, now, next);
    var q := Query(cal, s.info.rule, now, next);
    FirstIsListed(cal, s.info.rule, q, now, now + 1);
    DueFacts(fired.info, q, NextCheckpoint(next, q));
  }

  /** A tick that comes after the search horizon skips a run that lies beyond it, for good: the checkpoint passes it. */
  lemma BeyondHorizonIsSkipped(cal: Calendar, s: Schedule, now: nat, run: nat)
    requires Idle(s) && Runnable(cal, s.info) && cal.occurs(s.info.rule, run) && s.checkpoint <= U64_MAX
    requires SaturatingAdd(s.checkpoint, cal.horizon(s.info.rule)) + cal.reach < run <= now
    requires forall x :: s.checkpoint < x < run ==> !cal.occurs(s.info.rule, x)
    ensures Scan(cal, s, now) == s.(checkpoint := now) && s.checkpoint < run <= Scan(cal, s, now).checkpoint
  {
    hide Query;
    var q := Query(cal, s.info.rule, s.checkpoint, now);
    assert q.runAt == [] || q.runAt[0] in q.runAt;
    QueryLists(cal, s.info.rule, s.checkpoint, now);
  }
}
