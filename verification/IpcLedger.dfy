/** The ledger is tight: what is in it was pressed and has not been released since; and what the worker does with a call. */
module IpcLedger {
  import opened Basics
  import opened IpcModel
  import opened IpcInvariant
  import opened IpcSafety

  // ----- one entry -----

  /** A press is entered under its number, and nothing else is touched. */
  lemma RecordIs(l: Ledger, command: Command, id: nat, c: Control)
    ensures c in Record(l, command, id) <==> c in l || command == Press(c)
    ensures command == Press(c) ==> Record(l, command, id)[c] == id
    ensures command != Press(c) && c in l ==> Record(l, command, id)[c] == l[c]
  {
  }

  /** Whether a confirmed command with this number takes back a press with number `pressed`. */
  predicate TakesBack(command: Command, id: nat, c: Control, pressed: nat) {
    command.Recover? || ((command == Lift(c) || command == LiftAll) && pressed <= id)
  }

  /** A confirmed release forgets exactly what it covers and was pressed before it; every other entry stands. */
  lemma AcknowledgeIs(l: Ledger, command: Command, id: nat, c: Control)
    ensures c in Acknowledge(l, command, id) <==> c in l && !TakesBack(command, id, c, l[c])
    ensures c in Acknowledge(l, command, id) ==> Acknowledge(l, command, id)[c] == l[c]
  {
  }

  // ----- steps, as seen on the wire -----

  /** The request a step puts on the wire, if any. */
  function SentBy(s: System, step: Step): Option<Request>
    requires Enabled(s, step)
  {
    match step
    case Opens(call, expired) =>
      if expired then None
      else Some(Request(1, if call.RecoveryCall? then Recover(s.host.ledger.Keys) else call.command, true))
    case Submits(call, expired) =>
      if Wanted(s.host, call) && s.host.link.next < MAX_SAFE && !expired then
        Some(Request(s.host.link.next + 1, if call.RecoveryCall? then Recover({}) else call.command, !s.host.link.started))
      else None
    case _ => None
  }

  /** A call of the current generation that may go out: always a recovery, others once it is confirmed. */
  predicate Wanted(h: Host, call: Call) {
    call.generation == h.generation && (h.ready || h.generation == 0 || call.RecoveryCall?)
  }

  /** The number and command a step confirms, if any. */
  function ConfirmedBy(s: System, step: Step): Option<(nat, Command)>
    requires Enabled(s, step)
  {
    if !step.Receives? then None
    else
      var r, pending := Live(s).responses[0], s.host.link.pending;
      if r.done && r.id != 0 && r.id in pending && !pending[r.id].expired then Some((r.id, pending[r.id].command)) else None
  }

  /** Whether a step ends the connection from the worker's side. */
  predicate Breaks(s: System, step: Step)
    requires Enabled(s, step)
  {
    match step
    case Loses => true
    case Submits(call, _) => Wanted(s.host, call) && s.host.link.next >= MAX_SAFE
    case Receives =>
      var r, pending := Live(s).responses[0], s.host.link.pending;
      if r.id == 0 then !r.done
      else r.id !in pending || pending[r.id].expired || (pending[r.id].recovery && !r.done)
    case _ => false
  }

  /** Calls go out in the order they are taken, under the next number, and only these. */
  lemma SentIs(s: System, step: Step)
    requires Enabled(s, step) && (step.Opens? || step.Submits?)
    ensures var t := Apply(s, step);
            && t.sessions != []
            && (step.Opens? ==> |t.sessions| == |s.sessions| + 1 && t.sessions[..|s.sessions|] == s.sessions
                                && Live(t) == NEW_SESSION.(requests := if SentBy(s, step).Some? then [SentBy(s, step).value] else []))
            && (step.Submits? ==> |t.sessions| == |s.sessions| && Live(t) == Live(s).(requests := Live(t).requests)
                                  && Live(t).requests == Live(s).requests + if SentBy(s, step).Some? then [SentBy(s, step).value] else [])
  {
    if SentBy(s, step).Some? {
      assert [] + [SentBy(s, step).value] == [SentBy(s, step).value];
    }
    if step.Submits? {
      assert Live(s).requests + [] == Live(s).requests;
    }
  }

  /** What a step does to the ledger: it enters a press that goes out, and takes back what is confirmed. */
  lemma LedgerStep(s: System, step: Step)
    requires Enabled(s, step)
    ensures var l := Apply(s, step).host.ledger;
            l == if SentBy(s, step).Some? then Record(s.host.ledger, SentBy(s, step).value.command, SentBy(s, step).value.id)
                 else if ConfirmedBy(s, step).Some? && !Breaks(s, step) then
                   Acknowledge(s.host.ledger, ConfirmedBy(s, step).value.1, ConfirmedBy(s, step).value.0)
                 else s.host.ledger
  {
    hide Record, Acknowledge, LockFree, MayLeave, Accepts, Executed;
  }

  /** Generation, readiness and the connection after a step. */
  lemma HostStep(s: System, step: Step)
    requires Enabled(s, step)
    ensures var h, t := s.host, Apply(s, step).host;
            && (Breaks(s, step) ==> t.link.Down? && !t.ready && t.generation == h.generation + 1)
            && (!Breaks(s, step) ==> t.generation == h.generation && (h.ready ==> t.ready))
            && (!Breaks(s, step) && h.link.Up? ==> t.link.Up?)
            && (!Breaks(s, step) && !h.ready && t.ready ==>
                  step.Receives? && Live(s).responses[0].id != 0
                  && (h.generation == 0 || (ConfirmedBy(s, step).Some? && h.link.pending[ConfirmedBy(s, step).value.0].recovery)))
            && (step.Receives? && ConfirmedBy(s, step).Some? && h.link.pending[ConfirmedBy(s, step).value.0].recovery ==> t.ready)
            && (step.Receives? && !Breaks(s, step) && Live(s).responses[0].id != 0 ==>
                  t.link.pending == h.link.pending - {Live(s).responses[0].id} && (h.generation == 0 ==> t.ready))
  {
    hide Record, Acknowledge, LockFree, MayLeave, Accepts, Executed;
  }

  /** Numbers of a connection: the next request is one above, and an answered number stays used. */
  lemma NumberStep(s: System, step: Step)
    requires Enabled(s, step) && s.host.link.Up? && !Breaks(s, step)
    ensures var t := Apply(s, step).host.link;
            t.Up? && s.host.link.next <= t.next && (SentBy(s, step).Some? ==> SentBy(s, step).value.id == t.next == s.host.link.next + 1)
  {
    hide Record, Acknowledge, LockFree, MayLeave, Accepts, Executed;
  }

  // ----- the helper's side -----

  /**
   Once a connection's stream has begun, the helper serves whatever the worker sends on it,
   heartbeats included, other than a second recovery or a second beginning.
   */
  lemma HelperServesWorker(s: System, lost: set<Control>)
    requires Inv(s, lost) && s.host.link.Up? && Live(s).requests != [] && !Live(s).first
    ensures var r := Live(s).requests[0]; Accepts(Live(s), r) <==> !r.start && !r.command.Recover?
  {
    hide Covered, ResponsesLinked, SnapshotCovers, Phase, ResponsesSound, PendingNumbered;
  }

  /** The first request has to begin the stream. */
  lemma HelperBegins(s: System, lost: set<Control>)
    requires Inv(s, lost) && s.host.link.Up? && Live(s).requests != [] && Live(s).first && Live(s).last == 0
    ensures var r := Live(s).requests[0]; Accepts(Live(s), r) <==> r.start
  {
    hide Covered, ResponsesLinked, SnapshotCovers, Phase, ResponsesSound, PendingNumbered;
  }

  // ----- the ledger over runs -----

  ghost predicate PressesAt(trace: seq<System>, steps: seq<Step>, i: nat, c: Control)
    requires Run(trace, steps) && i < |steps|
  {
    SentBy(trace[i], steps[i]).Some? && SentBy(trace[i], steps[i]).value.command == Press(c)
  }

  /** Step `j` confirms a release or recovery that takes back the press on record. */
  ghost predicate ReleasesAt(trace: seq<System>, steps: seq<Step>, j: nat, c: Control)
    requires Run(trace, steps) && j < |steps|
  {
    var s := trace[j];
    && ConfirmedBy(s, steps[j]).Some? && !Breaks(s, steps[j])
    && c in s.host.ledger && TakesBack(ConfirmedBy(s, steps[j]).value.1, ConfirmedBy(s, steps[j]).value.0, c, s.host.ledger[c])
  }

  /** A press at step `i` that is the latest of its control and has not been taken back in the first `n` steps. */
  ghost predicate Outstanding(trace: seq<System>, steps: seq<Step>, n: nat, i: nat, c: Control)
    requires Run(trace, steps) && n <= |steps|
  {
    && i < n && PressesAt(trace, steps, i, c)
    && forall j :: i < j < n ==> !PressesAt(trace, steps, j, c) && !ReleasesAt(trace, steps, j, c)
  }

  /**
   In every run a control is in the ledger exactly if it was pressed and neither released
   nor recovered since, under the number of its latest press.
   */
  lemma {:induction false} LedgerIsOutstanding(trace: seq<System>, steps: seq<Step>, n: nat, c: Control)
    requires Run(trace, steps) && n <= |steps|
    ensures c in trace[n].host.ledger <==> exists i: nat :: Outstanding(trace, steps, n, i, c)
    ensures forall i: nat :: Outstanding(trace, steps, n, i, c) && c in trace[n].host.ledger ==>
              trace[n].host.ledger[c] == SentBy(trace[i], steps[i]).value.id
  {
    hide Apply, Enabled, Record, Acknowledge, SentBy, ConfirmedBy, Breaks, TakesBack;
    if n > 0 {
      LedgerIsOutstanding(trace, steps, n - 1, c);
      OutstandingStep(trace, steps, n - 1, n, c);
    }
  }

  lemma OutstandingStep(trace: seq<System>, steps: seq<Step>, m: nat, n: nat, c: Control)
    requires Run(trace, steps) && n == m + 1 <= |steps|
    requires c in trace[m].host.ledger <==> exists i: nat :: Outstanding(trace, steps, m, i, c)
    requires forall i: nat :: Outstanding(trace, steps, m, i, c) && c in trace[m].host.ledger ==>
               trace[m].host.ledger[c] == SentBy(trace[i], steps[i]).value.id
    ensures c in trace[n].host.ledger <==> exists i: nat :: Outstanding(trace, steps, n, i, c)
    ensures forall i: nat :: Outstanding(trace, steps, n, i, c) && c in trace[n].host.ledger ==>
              trace[n].host.ledger[c] == SentBy(trace[i], steps[i]).value.id
  {
    hide Apply, Enabled, Record, Acknowledge, SentBy, ConfirmedBy, Breaks, TakesBack;
    EntryStep(trace[m], steps[m], c);
    var s, step := trace[m], steps[m];
    forall i: nat | Outstanding(trace, steps, n, i, c) && i < m
      ensures Outstanding(trace, steps, m, i, c)
    {
    }
    if PressesAt(trace, steps, m, c) {
      assert Outstanding(trace, steps, n, m, c);
    } else if c in trace[n].host.ledger {
      var i: nat :| Outstanding(trace, steps, m, i, c);
      assert Outstanding(trace, steps, n, i, c);
    }
  }

  /** What one step does to one entry. */
  lemma EntryStep(s: System, step: Step, c: Control)
    requires Enabled(s, step)
    ensures var l, m := s.host.ledger, Apply(s, step).host.ledger;
            var presses := SentBy(s, step).Some? && SentBy(s, step).value.command == Press(c);
            var releases := ConfirmedBy(s, step).Some? && !Breaks(s, step) && c in l
                            && TakesBack(ConfirmedBy(s, step).value.1, ConfirmedBy(s, step).value.0, c, l[c]);
            && (c in m <==> presses || (c in l && !releases))
            && (presses ==> m[c] == SentBy(s, step).value.id)
            && (!presses && c in m ==> m[c] == l[c])
  {
    LedgerStep(s, step);
    OneAtATime(s, step);
    hide Apply, Enabled, Record, Acknowledge, SentBy, ConfirmedBy, Breaks, TakesBack;
    if SentBy(s, step).Some? {
      RecordIs(s.host.ledger, SentBy(s, step).value.command, SentBy(s, step).value.id, c);
    } else if ConfirmedBy(s, step).Some? {
      AcknowledgeIs(s.host.ledger, ConfirmedBy(s, step).value.1, ConfirmedBy(s, step).value.0, c);
    }
  }

  lemma OneAtATime(s: System, step: Step)
    requires Enabled(s, step)
    ensures SentBy(s, step).None? || ConfirmedBy(s, step).None?
  {
  }

  /** When every press has been taken back, the ledger is empty: no later recovery names a key nobody holds. */
  lemma QuietLedgerIsEmpty(trace: seq<System>, steps: seq<Step>, n: nat)
    requires Run(trace, steps) && n <= |steps|
    requires forall i, c :: 0 <= i < n && PressesAt(trace, steps, i, c) ==>
               exists j :: i < j < n && ReleasesAt(trace, steps, j, c)
    ensures trace[n].host.ledger == map[]
  {
    hide PressesAt, ReleasesAt, Apply, Enabled;
    forall c: Control
      ensures c !in trace[n].host.ledger
    {
      LedgerIsOutstanding(trace, steps, n, c);
    }
    assert trace[n].host.ledger.Keys == {};
  }

  // ----- a release that was sent later -----

  /** Within one connection, that is, while the generation stays, numbers only grow and the connection stays up. */
  lemma {:induction false} NumbersGrow(trace: seq<System>, steps: seq<Step>, i: nat, j: nat)
    requires Run(trace, steps) && i <= j <= |steps| && trace[i].host.link.Up?
    requires trace[i].host.generation == trace[j].host.generation
    ensures trace[j].host.link.Up? && trace[i].host.link.next <= trace[j].host.link.next
    decreases j - i
  {
    hide Apply, Enabled, Breaks, SentBy, ConfirmedBy;
    if i < j {
      HostStep(trace[i], steps[i]);
      GenerationGrows(trace, steps, i + 1, j);
      NumberStep(trace[i], steps[i]);
      NumbersGrow(trace, steps, i + 1, j);
    }
  }

  lemma {:induction false} GenerationGrows(trace: seq<System>, steps: seq<Step>, i: nat, j: nat)
    requires Run(trace, steps) && i <= j <= |steps|
    ensures trace[i].host.generation <= trace[j].host.generation
    decreases j - i
  {
    hide Apply, Enabled, Breaks, SentBy, ConfirmedBy;
    if i < j {
      HostStep(trace[i], steps[i]);
      GenerationGrows(trace, steps, i + 1, j);
    }
  }

  /** A request that goes out leaves its number as the latest of its connection. */
  lemma SentIsLatest(s: System, step: Step)
    requires Enabled(s, step) && SentBy(s, step).Some?
    ensures var t := Apply(s, step).host;
            t.link.Up? && t.link.next == SentBy(s, step).value.id && t.generation == s.host.generation
  {
    hide Record, Acknowledge, LockFree;
  }

  /**
   A release of a control, or of everything, that was sent after the latest press of that
   control on the same connection takes the press back as soon as it is confirmed.
   */
  lemma LaterReleaseTakesBack(trace: seq<System>, steps: seq<Step>, i: nat, m: nat, j: nat, c: Control)
    requires Run(trace, steps) && i < m < j < |steps|
    requires PressesAt(trace, steps, i, c) && forall k :: i < k < j ==> !PressesAt(trace, steps, k, c)
    requires var r := SentBy(trace[m], steps[m]);
             r.Some? && (r.value.command == Lift(c) || r.value.command == LiftAll)
             && ConfirmedBy(trace[j], steps[j]) == Some((r.value.id, r.value.command)) && !Breaks(trace[j], steps[j])
    requires trace[i].host.generation == trace[m].host.generation
    ensures c !in trace[j + 1].host.ledger
  {
    hide Apply, Enabled, Record, Acknowledge, SentBy, ConfirmedBy, Breaks;
    var pressed, r := SentBy(trace[i], steps[i]).value, SentBy(trace[m], steps[m]).value;
    SentIsLatest(trace[i], steps[i]);
    NumbersGrow(trace, steps, i + 1, m);
    NumberedNext(trace[m], steps[m]);
    EntryIsOld(trace, steps, i, j, c);
    EntryStep(trace[j], steps[j], c);
    ConfirmingSendsNothing(trace[j], steps[j]);
  }

  lemma ConfirmingSendsNothing(s: System, step: Step)
    requires Enabled(s, step) && ConfirmedBy(s, step).Some?
    ensures SentBy(s, step).None?
  {
  }

  lemma NumberedNext(s: System, step: Step)
    requires Enabled(s, step) && SentBy(s, step).Some? && s.host.link.Up?
    ensures SentBy(s, step).value.id == s.host.link.next + 1
  {
  }

  /** While a control is not pressed again, its entry, if it stands, keeps the number of the press. */
  lemma {:induction false} EntryIsOld(trace: seq<System>, steps: seq<Step>, i: nat, j: nat, c: Control)
    requires Run(trace, steps) && i < j <= |steps| && PressesAt(trace, steps, i, c)
    requires forall k :: i < k < j ==> !PressesAt(trace, steps, k, c)
    ensures c in trace[j].host.ledger ==> trace[j].host.ledger[c] == SentBy(trace[i], steps[i]).value.id
    decreases j
  {
    hide Apply, Enabled, SentBy, ConfirmedBy, Breaks, TakesBack;
    EntryStep(trace[j - 1], steps[j - 1], c);
    if i < j - 1 {
      assert !PressesAt(trace, steps, j - 1, c);
      EntryIsOld(trace, steps, i, j - 1, c);
    }
  }
}
