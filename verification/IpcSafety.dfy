/**
 No interleaving of sends, executions, lost answers, crashes and reconnections
 loses sight of a key, but for one: whatever may be down is in the ledger, and a
 confirmed recovery leaves nothing down, unless a recovery started a stream without
 its snapshot. Which controls that concerns, and when, is part of every statement.
 */
module IpcSafety {
  import opened Basics
  import opened IpcModel
  import opened IpcInvariant

  // ----- runs -----

  /** A run of the system from its start; the last state is `trace[|steps|]`. */
  ghost predicate Run(trace: seq<System>, steps: seq<Step>) {
    && |trace| == |steps| + 1
    && trace[0] == Init()
    && forall i :: 0 <= i < |steps| ==> Enabled(trace[i], steps[i]) && trace[i + 1] == Apply(trace[i], steps[i])
  }

  /** What the worker has lost sight of in the first `n` steps. */
  ghost function Lost(trace: seq<System>, steps: seq<Step>, n: nat): set<Control>
    requires Run(trace, steps) && n <= |steps|
  {
    if n == 0 then {} else Lost(trace, steps, n - 1) + LostBy(trace[n - 1], steps[n - 1])
  }

  /** In the run every recovery that starts a stream carries the ledger, or the ledger is empty. */
  ghost predicate Snapshotted(trace: seq<System>, steps: seq<Step>)
    requires Run(trace, steps)
  {
    forall i :: 0 <= i < |steps| ==> LostBy(trace[i], steps[i]) == {}
  }

  lemma {:induction false} NothingLost(trace: seq<System>, steps: seq<Step>, n: nat)
    requires Run(trace, steps) && Snapshotted(trace, steps) && n <= |steps|
    ensures Lost(trace, steps, n) == {}
  {
    hide Apply, Enabled, LostBy;
    if n != 0 {
      NothingLost(trace, steps, n - 1);
      assert LostBy(trace[n - 1], steps[n - 1]) == {};
    }
  }

  lemma {:induction false} RunKeeps(trace: seq<System>, steps: seq<Step>, n: nat)
    requires Run(trace, steps) && n <= |steps|
    ensures Inv(trace[n], Lost(trace, steps, n))
  {
    hide Inv, Apply, Enabled, LostBy;
    if n == 0 {
      InitKeeps();
    } else {
      RunKeeps(trace, steps, n - 1);
      StepKeeps(trace[n - 1], steps[n - 1], Lost(trace, steps, n - 1));
    }
  }

  lemma InitKeeps()
    ensures Inv(Init(), {})
  {
  }

  /**
   Across every interleaving, each control that is down, or may yet be pressed, is in
   the ledger, unless an unsnapshotted recovery lost sight of it; without one, it is.
   */
  lemma LedgerCoversEverything(trace: seq<System>, steps: seq<Step>, n: nat)
    requires Run(trace, steps) && n <= |steps|
    ensures Covered(trace[n], Lost(trace, steps, n))
    ensures Snapshotted(trace, steps) ==> Covered(trace[n], {})
  {
    hide Covered, LostBy;
    RunKeeps(trace, steps, n);
    InvCovers(trace[n], Lost(trace, steps, n));
    if Snapshotted(trace, steps) {
      NothingLost(trace, steps, n);
    }
  }

  /** What is down, and what the requests on their way may yet press. */
  ghost function AtRisk(s: System): set<Control> {
    s.held + set i, c | 0 <= i < |s.sessions| && c in Presses(s.sessions[i].requests) :: c
  }

  /** The step confirms a recovery to its caller. */
  ghost predicate ConfirmsRecovery(s: System, step: Step) {
    && step == Receives && Enabled(s, step)
    && var r := Live(s).responses[0];
       && r.done && r.id != 0 && r.id in s.host.link.pending
       && s.host.link.pending[r.id].recovery && !s.host.link.pending[r.id].expired
  }

  /**
   When the worker confirms a recovery, the ledger is empty, and nothing is down or
   on its way to be pressed but what unsnapshotted recoveries lost sight of: without
   one, nothing at all, although numbers restart on each connection and old requests
   may have run late.
   */
  lemma AcknowledgedRecoveryReleasesEverything(trace: seq<System>, steps: seq<Step>, n: nat)
    requires Run(trace, steps) && n < |steps|
    requires ConfirmsRecovery(trace[n], steps[n])
    ensures trace[n + 1].host.ready && trace[n + 1].host.ledger == map[]
    ensures AtRisk(trace[n + 1]) <= Lost(trace, steps, n + 1)
    ensures Snapshotted(trace, steps) ==> AtRisk(trace[n + 1]) == {}
  {
    hide LostBy;
    RunKeeps(trace, steps, n);
    ConfirmedLeaves(trace[n], Lost(trace, steps, n));
    if Snapshotted(trace, steps) {
      NothingLost(trace, steps, n + 1);
    }
  }

  lemma ConfirmedLeaves(s: System, lost: set<Control>)
    requires Inv(s, lost) && ConfirmsRecovery(s, Receives)
    ensures var t := Apply(s, Receives);
            t.host.ready && t.host.ledger == map[] && AtRisk(t) <= lost
  {
    hide RequestsLinked, ResponsesLinked, SnapshotCovers, Phase;
    var r := Live(s).responses[0];
    assert ReleasesHold(s, Live(s), r.id, s.host.link.pending[r.id], lost);
    assert s.sessions[0] == Live(s);
  }

  /**
   When the worker confirms a release of everything and nothing was pressed after
   it was sent, the ledger is empty and nothing is down but what was lost sight of.
   */
  lemma AcknowledgedReleaseAllReleasesEverything(trace: seq<System>, steps: seq<Step>, n: nat)
    requires Run(trace, steps) && n < |steps|
    requires ConfirmsReleaseAll(trace[n], steps[n])
    ensures trace[n + 1].held <= Lost(trace, steps, n + 1) && trace[n + 1].host.ledger == map[]
    ensures Snapshotted(trace, steps) ==> trace[n + 1].held == {}
  {
    hide LostBy;
    RunKeeps(trace, steps, n);
    ReleasedAll(trace[n], Lost(trace, steps, n));
    if Snapshotted(trace, steps) {
      NothingLost(trace, steps, n + 1);
    }
  }

  /** The step confirms a release of everything, and nothing was pressed after it was sent. */
  ghost predicate ConfirmsReleaseAll(s: System, step: Step) {
    && step == Receives && Enabled(s, step)
    && var r := Live(s).responses[0];
       && r.done && r.id != 0 && r.id in s.host.link.pending
       && s.host.link.pending[r.id] == Pending(LiftAll, false, false)
       && forall c :: c in s.host.ledger ==> s.host.ledger[c] <= r.id
  }

  lemma ReleasedAll(s: System, lost: set<Control>)
    requires Inv(s, lost) && ConfirmsReleaseAll(s, Receives)
    ensures Apply(s, Receives).held <= lost && Apply(s, Receives).host.ledger == map[]
  {
    hide RequestsLinked, ResponsesLinked, SnapshotCovers, Phase;
    var r := Live(s).responses[0];
    assert ReleasesHold(s, Live(s), r.id, s.host.link.pending[r.id], lost);
    assert Apply(s, Receives).host.ledger == Acknowledge(s.host.ledger, LiftAll, r.id);
  }

  /** After a reconnection nothing but a recovery or a heartbeat is on the wire until recovery is confirmed. */
  lemma NoInputBeforeRecovery(trace: seq<System>, steps: seq<Step>, n: nat, r: Request)
    requires Run(trace, steps) && n <= |steps|
    requires var h := trace[n].host; h.link.Up? && h.generation != 0 && !h.ready
    requires trace[n].sessions != [] && r in Live(trace[n]).requests
    ensures r.command.Recover? || (r.id == 0 && r.command.Other?)
  {
    hide LostBy;
    RunKeeps(trace, steps, n);
    var live := Live(trace[n]);
    var i :| 0 <= i < |live.requests| && live.requests[i] == r;
  }

  // ----- recovery is never refused for its size -----

  lemma RangeSize(s: set<Control>, lo: nat, hi: nat, key: bool)
    requires forall c :: c in s ==> c.Key? == key && (if key then lo <= c.usage < hi else lo <= c.number < hi)
    requires lo <= hi
    ensures |s| <= hi - lo
    decreases hi - lo
  {
    if lo == hi {
      assert s == {};
    } else {
      var top := if key then Key(hi - 1) else Button(hi - 1);
      RangeSize(s - {top}, lo, hi - 1, key);
    }
  }

  /** A ledger of real keys and buttons always fits the bounds the helper puts on a recovery. */
  lemma RealControlsAreAccepted(controls: set<Control>)
    requires forall c :: c in controls ==> if c.Key? then 4 <= c.usage <= 231 else 1 <= c.number <= 5
    ensures RecoverAccepted(controls)
  {
    RangeSize(set c | c in controls && c.Key?, 4, 232, true);
    RangeSize(set c | c in controls && c.Button?, 1, 6, false);
  }

  // ----- where the worker loses sight of a key -----

  /** A connection that is up, whose opening recovery was dropped as expired. */
  ghost predicate Unopened(s: System) {
    UnopenedHost(s.host) && s.sessions == [NEW_SESSION]
  }

  /** The same, as the worker sees it. */
  predicate UnopenedHost(h: Host) {
    h.link == Up(1, false, map[]) && h.generation != 0 && !h.ready
  }

  function SecondRecovery(s: System): Step {
    Submits(RecoveryCall(s.host.generation), false)
  }

  /**
   The second recovery call on such a connection can be sent, executed and confirmed, and
   afterwards everything that is or may go down is in the ledger.
   */
  ghost predicate SecondRecoveryCovers(s: System) {
    && Enabled(s, SecondRecovery(s))
    && var s1 := Apply(s, SecondRecovery(s));
    && Enabled(s1, Executes(true, s.held))
    && var s2 := Apply(s1, Executes(true, s.held));
    && Enabled(s2, Receives)
    && Covered(Apply(s2, Receives), {})
  }

  lemma SecondRecoveryRuns(s: System, lost: set<Control>)
    requires Inv(s, lost) && Unopened(s)
    ensures Enabled(s, SecondRecovery(s))
    ensures var s1 := Apply(s, SecondRecovery(s));
            && Enabled(s1, Executes(true, s.held))
            && var s2 := Apply(s1, Executes(true, s.held));
            && Enabled(s2, Receives) && ConfirmsRecovery(s2, Receives)
            && var s3 := Apply(s2, Receives);
            && s3.host.ready && s3.host.ledger == map[] && s3.held == s.held
            && s3.host.generation == s.host.generation
            && AtRisk(s3) == s3.held
  {
    hide Inv;
    var s1 := Apply(s, SecondRecovery(s));
    var request := Request(2, Recover({}), true);
    assert [] + [request] == [request];
    assert s1.sessions[0] == NEW_SESSION.(requests := [request]);
    RealControlsAreAccepted({});
    assert s.held - ({} + {}) == s.held;
    var s2 := Apply(s1, Executes(true, s.held));
    assert [] + [Response(2, true)] == [Response(2, true)] && [request][1..] == [];
    assert s2.sessions[0] == Session([], [Response(2, true)], true, false, 2, {});
    var s3 := Apply(s2, Receives);
    assert s3.sessions[0].requests == [];
    assert Presses([]) == {};
  }

  /**
   The family of runs in which sight is lost: the second recovery goes out without the
   ledger, is confirmed, and empties the ledger while everything that was down stays
   down. It is harmless exactly when nothing is.
   */
  lemma UnsnapshottedRecoveryForgets(s: System, lost: set<Control>)
    requires Inv(s, lost) && Unopened(s)
    ensures Enabled(s, SecondRecovery(s))
    ensures var s1 := Apply(s, SecondRecovery(s));
            && Enabled(s1, Executes(true, s.held))
            && var s2 := Apply(s1, Executes(true, s.held));
            && Enabled(s2, Receives)
            && var s3 := Apply(s2, Receives);
            && s3.host.ready && s3.host.ledger == map[] && s3.held == s.held
            && (Covered(s3, {}) <==> s.held == {})
  {
    hide Inv, Apply, Enabled, ConfirmsRecovery;
    SecondRecoveryRuns(s, lost);
    var s3 := Apply(Apply(Apply(s, SecondRecovery(s)), Executes(true, s.held)), Receives);
    forall i | 0 <= i < |s3.sessions|
      ensures Presses(s3.sessions[i].requests) <= AtRisk(s3)
    {
    }
  }

  /** Whatever the hardware holds, the worker that sees `h` and sends a second recovery keeps it in sight. */
  ghost predicate SecondRecoveryIsSafe(h: Host) {
    forall s :: Inv(s, {}) && Unopened(s) && s.host == h ==> SecondRecoveryCovers(s)
  }

  /** Everything in the ledger may be down: the state in which it is. */
  lemma WorstCase(h: Host)
    requires UnopenedHost(h)
    ensures Inv(System(h, [NEW_SESSION], h.ledger.Keys), {})
  {
    assert Presses([]) == {};
  }

  /** It is safe for the worker to send one exactly if its own ledger is empty. */
  lemma SecondRecoveryIsSafeIff(h: Host)
    requires UnopenedHost(h)
    ensures SecondRecoveryIsSafe(h) <==> h.ledger == map[]
  {
    hide Inv, Covered, Enabled, Apply;
    if h.ledger == map[] {
      forall s | Inv(s, {}) && Unopened(s) && s.host == h
        ensures SecondRecoveryCovers(s)
      {
        InvCovers(s, {});
        HeldIsInLedger(s);
        UnsnapshottedRecoveryForgets(s, {});
      }
    } else {
      WorstCase(h);
      var s := System(h, [NEW_SESSION], h.ledger.Keys);
      UnsnapshottedRecoveryForgets(s, {});
      assert !SecondRecoveryCovers(s);
    }
  }

  lemma HeldIsInLedger(s: System)
    requires Covered(s, {})
    ensures s.held <= s.host.ledger.Keys
  {
  }

  /** A concrete run that reaches such a connection with a key down. */
  lemma StuckKeyRun(key: Control) returns (trace: seq<System>, steps: seq<Step>)
    ensures Run(trace, steps)
    ensures var end := trace[|steps|]; Unopened(end) && end.held == {key} && Inv(end, {})
  {
    hide Inv, RecoverAccepted, LockFree, Acknowledge, Receive;
    var s0 := Init();
    var press := Opens(PlainCall(Press(key), 0), false);
    var s1 := Apply(s0, press);
    var request := Request(1, Press(key), true);
    assert [] + [request] == [request];
    assert s1.sessions[0] == NEW_SESSION.(requests := [request]);
    var s2 := Apply(s1, Executes(true, {key}));
    assert [request][1..] == [];
    var s3 := Apply(s2, Loses);
    var s4 := Apply(s3, Dies({key}));
    assert s4.sessions == [];
    var reopen := Opens(RecoveryCall(1), true);
    var s5 := Apply(s4, reopen);
    assert s5.sessions == [NEW_SESSION];
    trace := [s0, s1, s2, s3, s4, s5];
    steps := [press, Executes(true, {key}), Loses, Dies({key}), reopen];
    StuckKeyIsCovered(s5, key);
  }

  lemma StuckKeyIsCovered(s: System, key: Control)
    requires s == System(Host(map[key := 1], 1, false, Up(1, false, map[])), [NEW_SESSION], {key})
    ensures Inv(s, {})
  {
    assert Presses([]) == {};
  }
}
