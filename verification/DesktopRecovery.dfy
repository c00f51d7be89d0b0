/** The desktop on top of the helper channel: what a confirmed recovery leaves for the next update. */
module DesktopRecovery {
  import opened Basics
  import opened Maintenance
  import opened DesktopModel
  import opened DesktopSafety
  import opened DesktopSession
  import IpcModel
  import IpcInvariant
  import IpcSafety

  /** What the desktop is told when step `n` of a run of the channel confirms a recovery. */
  ghost function Report(trace: seq<IpcModel.System>, n: nat): Recovery
    requires n + 1 < |trace|
  {
    Recovered(trace[n + 1].host.generation, trace[n + 1].held)
  }

  /**
   A confirmed recovery leaves nothing behind but what the channel lost sight of: nothing
   at all, while every recovery that starts a stream carries the ledger.
   */
  lemma RecoveryLeavesTheLost(
    trace: seq<IpcModel.System>, steps: seq<IpcModel.Step>, n: nat, s: State)
    requires IpcSafety.Run(trace, steps) && n < |steps|
    requires IpcSafety.ConfirmsRecovery(trace[n], steps[n])
    ensures LeftBy(s, DoReconcile(Report(trace, n))) <= IpcSafety.Lost(trace, steps, n + 1)
    ensures IpcSafety.Snapshotted(trace, steps) ==> LeftBy(s, DoReconcile(Report(trace, n))) == {}
  {
    IpcSafety.AcknowledgedRecoveryReleasesEverything(trace, steps, n);
  }

  /** The channel run of `IpcSafety.StuckKeyRun`, carried on until the second recovery is confirmed. */
  lemma ForgottenKeyRun(key: Control) returns (trace: seq<IpcModel.System>, steps: seq<IpcModel.Step>)
    ensures IpcSafety.Run(trace, steps) && |steps| > 0
    ensures IpcSafety.ConfirmsRecovery(trace[|steps| - 1], steps[|steps| - 1])
    ensures trace[|steps|].held == {key} && trace[|steps|].host.ledger == map[]
    ensures trace[|steps|].host.ready && trace[|steps|].host.generation != 0
  {
    hide IpcModel.Apply, IpcModel.Enabled, IpcInvariant.Inv;
    var before, first := IpcSafety.StuckKeyRun(key);
    var s := before[|first|];
    IpcSafety.SecondRecoveryRuns(s, {});
    var call, runs := IpcSafety.SecondRecovery(s), IpcModel.Executes(true, s.held);
    var s1 := IpcModel.Apply(s, call);
    var s2 := IpcModel.Apply(s1, runs);
    var s3 := IpcModel.Apply(s2, IpcModel.Receives);
    trace, steps := before + [s1, s2, s3], first + [call, runs, IpcModel.Receives];
    RunOn(before, first, s1, call);
    RunOn(before + [s1], first + [call], s2, runs);
    RunOn(before + [s1] + [s2], first + [call] + [runs], s3, IpcModel.Receives);
    assert trace == before + [s1] + [s2] + [s3] && steps == first + [call] + [runs] + [IpcModel.Receives];
  }

  /** A run carried on by an enabled step is a run. */
  lemma RunOn(trace: seq<IpcModel.System>, steps: seq<IpcModel.Step>, next: IpcModel.System, step: IpcModel.Step)
    requires IpcSafety.Run(trace, steps)
    requires IpcModel.Enabled(trace[|steps|], step) && next == IpcModel.Apply(trace[|steps|], step)
    ensures IpcSafety.Run(trace + [next], steps + [step])
  {
    hide IpcModel.Apply, IpcModel.Enabled;
  }

  /**
   From end to end: a client presses a key, the helper is lost, the channel confirms a
   recovery that released nothing, the desktop starts over, and an update drain is
   granted with the key still down.
   */
  lemma DrainOverStuckKey(valid: Credentials, client: Octets)
    returns (trace: seq<IpcModel.System>, steps: seq<IpcModel.Step>, ops: seq<Op>)
    requires valid(client, 0)
    ensures IpcSafety.Run(trace, steps) && |steps| > 0 && IpcSafety.ConfirmsRecovery(trace[|steps| - 1], steps[|steps| - 1])
    ensures |ops| == 5 && ops[3] == DoReconcile(Report(trace, |steps| - 1)) && ops[4] == DrainBegins
    ensures var s := After([], ops, 5); s.gate.draining && s.os.held == {Key(4)}
  {
    hide Apply;
    trace, steps := ForgottenKeyRun(Key(4));
    var session := Session(valid, client);
    ops := session[..3] + [DoReconcile(Report(trace, |steps| - 1)), DrainBegins];
    KeyIsDown(valid, client);
    SameBeginning(session, ops, 3);
    var s := After([], ops, 3);
    RunKeeps([], ops, 3);
    DrainOverWhatRecoveryLeft(s, ops[3].recovery, Strays([], ops, 3));
  }

  lemma {:induction false} SameBeginning(a: seq<Op>, b: seq<Op>, n: nat)
    requires n <= |a| && n <= |b| && a[..n] == b[..n]
    ensures After([], a, n) == After([], b, n)
  {
    hide Apply;
    if n > 0 {
      assert a[n - 1] == a[..n][n - 1] == b[..n][n - 1] == b[n - 1];
      assert a[..n - 1] == a[..n][..n - 1] == b[..n][..n - 1] == b[..n - 1];
      SameBeginning(a, b, n - 1);
    }
  }
}
