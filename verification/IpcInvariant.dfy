/**
 What every step of the helper channel keeps: the ledger, the wire, the answers and the
 hardware agree about every control the worker has not lost sight of.
 */
module IpcInvariant {
  import opened Basics
  import opened IpcModel

  // ----- what may be down -----

  ghost function Presses(requests: seq<Request>): set<Control> {
    set r | r in requests && r.command.Press? :: r.command.control
  }

  /**
   Every control that is down, or that a request still on its way may press, is in the
   ledger, or among those the worker has lost sight of.
   */
  ghost predicate Covered(s: System, lost: set<Control>) {
    && s.held <= s.host.ledger.Keys + lost
    && forall i :: 0 <= i < |s.sessions| ==> Presses(s.sessions[i].requests) <= s.host.ledger.Keys + lost
  }

  // ----- the invariant -----

  /** Everything pressed so far was pressed on this connection. */
  ghost predicate Clean(h: Host) {
    h.link.Up? && (h.generation == 0 || h.ready)
  }

  /** Request numbers on the wire are new to the helper, in order, and known to the host. */
  ghost predicate RequestsLinked(live: Session, link: Link)
    requires link.Up?
  {
    && (forall i :: 0 <= i < |live.requests| && live.requests[i].id != 0 ==>
          var r := live.requests[i];
          && live.last < r.id <= link.next
          && r.id in link.pending && link.pending[r.id].command == r.command)
    && (forall i, j :: 0 <= i < j < |live.requests| && live.requests[i].id != 0 && live.requests[j].id != 0 ==>
          live.requests[i].id < live.requests[j].id)
    && (forall i :: 0 <= i < |live.requests| && live.requests[i].id == 0 ==> live.requests[i].command.Other?)
  }

  ghost predicate ResponsesLinked(live: Session, link: Link)
    requires link.Up?
  {
    && (forall i :: 0 <= i < |live.responses| && live.responses[i].id != 0 ==>
          live.responses[i].id <= live.last && live.responses[i].id in link.pending)
    && (forall i, j :: 0 <= i < j < |live.responses| && live.responses[i].id != 0 && live.responses[j].id != 0 ==>
          live.responses[i].id < live.responses[j].id)
  }

  ghost predicate PendingNumbered(link: Link)
    requires link.Up?
  {
    && (forall id :: id in link.pending ==> 0 < id <= link.next)
    && (forall id :: id in link.pending ==> link.pending[id].recovery == link.pending[id].command.Recover?)
    && (!link.started ==> link.pending == map[])
  }

  /** A recovery that the helper can accept names everything in the ledger that is not lost. */
  ghost predicate SnapshotCovers(live: Session, h: Host, lost: set<Control>)
    requires h.link.Up?
  {
    forall r :: r in live.requests && r.command.Recover? && r.start
                && r.id in h.link.pending && !h.link.pending[r.id].expired ==>
      h.ledger.Keys <= r.command.controls + lost && Presses(live.requests) == {}
  }

  /** Nothing that a confirmed release covered is down, or will be, except through a later press. */
  ghost predicate ReleasesHold(s: System, live: Session, id: nat, p: Pending, lost: set<Control>) {
    var risk := s.held + Presses(live.requests);
    match p.command
    case Lift(c) => c in risk - lost ==> c in s.host.ledger && s.host.ledger[c] > id
    case LiftAll => forall c :: c in risk - lost ==> c in s.host.ledger && s.host.ledger[c] > id
    case Recover(_) => p.expired || (risk <= lost && |s.sessions| == 1)
    case _ => true
  }

  ghost predicate ResponsesSound(s: System, live: Session, lost: set<Control>)
    requires s.host.link.Up?
  {
    forall i :: 0 <= i < |live.responses| && live.responses[i].done && live.responses[i].id in s.host.link.pending ==>
      ReleasesHold(s, live, live.responses[i].id, s.host.link.pending[live.responses[i].id], lost)
  }

  /** Before recovery is confirmed only recoveries are on the way; afterwards this helper pressed all that is down. */
  ghost predicate Phase(s: System, live: Session, lost: set<Control>)
    requires s.host.link.Up?
  {
    if Clean(s.host) then
      && |s.sessions| == 1
      && s.held <= live.own + lost
      && forall r :: r in live.requests && r.command.Press? && r.command.control !in lost ==>
           r.command.control in s.host.ledger && r.id <= s.host.ledger[r.command.control]
    else forall id :: id in s.host.link.pending ==> s.host.link.pending[id].recovery
  }

  ghost predicate LiveInv(s: System, lost: set<Control>)
    requires s.host.link.Up? && s.sessions != []
  {
    var live := Live(s);
    && RequestsLinked(live, s.host.link)
    && ResponsesLinked(live, s.host.link)
    && PendingNumbered(s.host.link)
    && live.last <= s.host.link.next
    && SnapshotCovers(live, s.host, lost)
    && ResponsesSound(s, live, lost)
    && Phase(s, live, lost)
  }

  ghost predicate Inv(s: System, lost: set<Control>) {
    && Covered(s, lost)
    && (s.host.link.Down? ==> !s.host.ready)
    && (s.host.link.Down? && s.host.generation == 0 ==> s.sessions == [] && s.held == {} && s.host.ledger == map[])
    && (s.host.link.Up? ==> s.sessions != [] && LiveInv(s, lost))
  }

  /**
   A recovery call that does not open its connection, but starts the stream on it,
   carries no snapshot: the worker loses sight of whatever the ledger holds.
   */
  predicate Unsnapshotted(s: System, step: Step)
    requires Enabled(s, step)
  {
    step.Submits? && step.call.RecoveryCall? && !s.host.link.started && Dispose(s.host, step.call, step.expired).Send?
  }

  function LostBy(s: System, step: Step): set<Control>
    requires Enabled(s, step)
  {
    if Unsnapshotted(s, step) then s.host.ledger.Keys else {}
  }

  // ----- steps -----

  lemma InvCovers(s: System, lost: set<Control>)
    requires Inv(s, lost)
    ensures Covered(s, lost)
  {
  }

  lemma PressesAppend(requests: seq<Request>, r: Request)
    ensures Presses(requests + [r]) ==
            Presses(requests) + if r.command.Press? then {r.command.control} else {}
  {
    assert forall q :: q in requests + [r] <==> q in requests || q == r;
  }

  lemma PressesRest(requests: seq<Request>)
    requires requests != []
    ensures Presses(requests) ==
            Presses(requests[1..]) + if requests[0].command.Press? then {requests[0].command.control} else {}
  {
    assert requests == [requests[0]] + requests[1..];
    assert forall q :: q in requests <==> q in requests[1..] || q == requests[0];
  }

  lemma LoseKeeps(s: System, lost: set<Control>)
    requires Covered(s, lost)
    ensures Inv(s.(host := Lose(s.host)), lost)
  {
  }

  /** The system after the worker has numbered and sent a command. */
  ghost function Sent(s: System, command: Command): System
    requires s.host.link.Up? && s.sessions != []
  {
    var n := s.host.link.next + 1;
    s.(host := s.host.(ledger := Record(s.host.ledger, command, n),
                       link := Up(n, true, s.host.link.pending[n := Pending(command, command.Recover?, false)])),
       sessions := WithLive(s, Live(s).(requests := Live(s).requests + [Request(n, command, !s.host.link.started)])))
  }

  lemma SentIsLinked(s: System, command: Command, lost: set<Control>)
    requires s.host.link.Up? && s.sessions != [] && LiveInv(s, lost)
    ensures var t := Sent(s, command);
            && RequestsLinked(Live(t), t.host.link) && ResponsesLinked(Live(t), t.host.link)
            && PendingNumbered(t.host.link)
  {
    hide SnapshotCovers, ResponsesSound, Phase;
  }

  lemma SentIsCovered(s: System, command: Command, lost: set<Control>)
    requires s.host.link.Up? && s.sessions != [] && Covered(s, lost)
    ensures Covered(Sent(s, command), lost)
  {
    PressesAppend(Live(s).requests, Request(s.host.link.next + 1, command, !s.host.link.started));
  }

  /** No press is sent while a recovery may still be confirmed. */
  ghost predicate PressAllowed(h: Host, command: Command)
    requires h.link.Up?
  {
    command.Press? ==> forall id :: id in h.link.pending ==> !h.link.pending[id].recovery || h.link.pending[id].expired
  }

  lemma SentIsSnapshotted(s: System, command: Command, lost: set<Control>)
    requires s.host.link.Up? && s.sessions != [] && LiveInv(s, lost)
    requires PressAllowed(s.host, command)
    requires command.Recover? && !s.host.link.started ==> s.host.ledger.Keys <= command.controls + lost
    ensures SnapshotCovers(Live(Sent(s, command)), Sent(s, command).host, lost)
  {
    hide ResponsesSound, Phase, ResponsesLinked;
    var live, t := Live(s), Sent(s, command);
    var last := Request(s.host.link.next + 1, command, !s.host.link.started);
    PressesAppend(live.requests, last);
    assert forall r :: r in Live(t).requests ==> r == last || r in live.requests;
    if !s.host.link.started {
      UnstartedIsQuiet(live, s.host.link);
    }
  }

  /** Before the stream is started only heartbeats are on the wire. */
  lemma UnstartedIsQuiet(live: Session, link: Link)
    requires link.Up? && !link.started && RequestsLinked(live, link) && PendingNumbered(link)
    ensures Presses(live.requests) == {} && forall r :: r in live.requests ==> r.id == 0
  {
    forall r | r in live.requests
      ensures r.id == 0 && !r.command.Press?
    {
      var i :| 0 <= i < |live.requests| && live.requests[i] == r;
    }
  }

  lemma SentKeepsReleases(s: System, command: Command, lost: set<Control>)
    requires s.host.link.Up? && s.sessions != [] && LiveInv(s, lost)
    requires PressAllowed(s.host, command)
    ensures ResponsesSound(Sent(s, command), Live(Sent(s, command)), lost)
  {
    hide SnapshotCovers, Phase, RequestsLinked;
    var live, t, link := Live(s), Sent(s, command), s.host.link;
    PressesAppend(live.requests, Request(link.next + 1, command, !link.started));
    forall i | 0 <= i < |live.responses| && live.responses[i].done && live.responses[i].id in t.host.link.pending
      ensures ReleasesHold(t, Live(t), live.responses[i].id, t.host.link.pending[live.responses[i].id], lost)
    {
      var id := live.responses[i].id;
      assert id in link.pending && id <= link.next;
      assert ReleasesHold(s, live, id, link.pending[id], lost);
    }
  }

  lemma SentKeepsPhase(s: System, command: Command, lost: set<Control>)
    requires s.host.link.Up? && s.sessions != [] && LiveInv(s, lost)
    requires Clean(s.host) || command.Recover?
    ensures Phase(Sent(s, command), Live(Sent(s, command)), lost)
  {
    hide SnapshotCovers, ResponsesSound, ResponsesLinked;
    var live, t := Live(s), Sent(s, command);
    var last := Request(s.host.link.next + 1, command, !s.host.link.started);
    forall r | r in Live(t).requests && r.command.Press? && r.command.control !in lost && Clean(t.host)
      ensures r.command.control in t.host.ledger && r.id <= t.host.ledger[r.command.control]
    {
      if r != last {
        assert r in live.requests;
        var i :| 0 <= i < |live.requests| && live.requests[i] == r;
        assert r.id <= s.host.link.next;
      }
    }
  }

  lemma SentKeeps(s: System, command: Command, lost: set<Control>)
    requires Inv(s, lost) && s.host.link.Up?
    requires PressAllowed(s.host, command)
    requires Clean(s.host) || command.Recover?
    requires command.Recover? && !s.host.link.started ==> s.host.ledger.Keys <= command.controls + lost
    ensures Inv(Sent(s, command), lost)
  {
    hide RequestsLinked, ResponsesLinked, PendingNumbered, SnapshotCovers, ResponsesSound, Phase, Covered;
    SentIsLinked(s, command, lost);
    SentIsCovered(s, command, lost);
    SentIsSnapshotted(s, command, lost);
    SentKeepsReleases(s, command, lost);
    SentKeepsPhase(s, command, lost);
  }

  lemma SubmitsKeeps(s: System, step: Step, lost: set<Control>)
    requires Inv(s, lost) && step.Submits? && Enabled(s, step) && LostBy(s, step) <= lost
    ensures Inv(Apply(s, step), lost)
  {
    hide Inv, LiveInv, Covered;
    var t := Apply(s, step);
    var h := s.host;
    InvCovers(s, lost);
    assert WithLive(s, Live(s)) == s.sessions;
    match Dispose(h, step.call, step.expired)
    case Refuse => assert t == s;
    case Exhaust => LoseKeeps(s, lost);
    case Drop => DropKeeps(s, lost);
    case Send =>
      SentKeeps(s, Bare(step.call), lost);
      assert t == Sent(s, Bare(step.call));
  }

  lemma DropKeeps(s: System, lost: set<Control>)
    requires Inv(s, lost) && s.host.link.Up?
    ensures var h := s.host.(link := s.host.link.(next := s.host.link.next + 1));
            Inv(s.(host := h, sessions := WithLive(s, Live(s))), lost)
  {
    assert WithLive(s, Live(s)) == s.sessions;
  }

  /** A fresh connection, before the call that opened it is looked at. */
  ghost function Connected(s: System): System {
    s.(host := s.host.(link := Up(0, false, map[])), sessions := s.sessions + [NEW_SESSION])
  }

  lemma ConnectKeeps(s: System, lost: set<Control>)
    requires Inv(s, lost) && s.host.link.Down?
    ensures Inv(Connected(s), lost)
  {
    assert Presses([]) == {};
    assert forall i :: 0 <= i < |s.sessions| ==> Connected(s).sessions[i] == s.sessions[i];
  }

  lemma OpensKeeps(s: System, step: Step, lost: set<Control>)
    requires Inv(s, lost) && step.Opens? && Enabled(s, step)
    ensures Inv(Apply(s, step), lost)
  {
    hide RequestsLinked, ResponsesLinked, SnapshotCovers, ResponsesSound, Covered, Phase;
    var c := Connected(s);
    var command := Opening(s.host, step.call);
    ConnectKeeps(s, lost);
    match Dispose(c.host, step.call, step.expired)
    case Drop =>
      DropKeeps(c, lost);
      assert WithLive(c, Live(c)) == c.sessions;
    case Send =>
      SentKeeps(c, command, lost);
      assert Apply(s, step) == Sent(c, command);
    case _ =>
  }

  // ----- receiving an answer -----

  /** The live session with its first answer taken off the wire. */
  ghost function Taken(s: System): System
    requires s.sessions != [] && Live(s).responses != []
  {
    s.(sessions := WithLive(s, Live(s).(responses := Live(s).responses[1..])))
  }

  lemma TakenIsCovered(s: System, lost: set<Control>)
    requires s.sessions != [] && Live(s).responses != [] && Covered(s, lost)
    ensures Covered(Taken(s), lost)
  {
    assert forall i :: 0 <= i < |s.sessions| ==> Taken(s).sessions[i].requests == s.sessions[i].requests;
  }

  /** An answer to a heartbeat changes nothing else. */
  lemma TakenKeeps(s: System, lost: set<Control>)
    requires Inv(s, lost) && s.host.link.Up? && Live(s).responses != []
    ensures Inv(Taken(s), lost)
  {
    hide PendingNumbered;
    TakenIsCovered(s, lost);
    var live, t := Live(s), Taken(s);
    forall i | 0 <= i < |Live(t).responses| && Live(t).responses[i].done && Live(t).responses[i].id in s.host.link.pending
      ensures ReleasesHold(t, Live(t), Live(t).responses[i].id, s.host.link.pending[Live(t).responses[i].id], lost)
    {
      assert Live(t).responses[i] == live.responses[i + 1];
    }
  }

  /** Closing one pending call, with some of the ledger forgotten. */
  ghost function Settled(s: System, id: nat, ledger: Ledger, ready: bool): System
    requires s.host.link.Up?
  {
    s.(host := s.host.(ledger := ledger, ready := ready, link := s.host.link.(pending := s.host.link.pending - {id})))
  }

  /** Nothing that is down or on its way is forgotten. */
  ghost predicate ForgetsSafely(s: System, l: Ledger, lost: set<Control>)
    requires s.sessions != []
  {
    && (forall c :: c in l ==> c in s.host.ledger && l[c] == s.host.ledger[c])
    && (l != s.host.ledger ==> |s.sessions| == 1)
    && (forall c :: c in s.held + Presses(Live(s).requests) - lost && c in s.host.ledger ==> c in l)
  }

  /** A confirmed command forgets only what is neither down nor on its way. */
  lemma AcknowledgeForgetsSafely(s: System, id: nat, lost: set<Control>)
    requires Inv(s, lost) && s.host.link.Up? && id in s.host.link.pending
    requires var p := s.host.link.pending[id]; !p.expired && ReleasesHold(s, Live(s), id, p, lost)
    ensures ForgetsSafely(s, Acknowledge(s.host.ledger, s.host.link.pending[id].command, id), lost)
  {
    hide RequestsLinked, ResponsesLinked, SnapshotCovers, ResponsesSound;
  }

  lemma SettledIsCovered(s: System, id: nat, l: Ledger, ready: bool, lost: set<Control>)
    requires Covered(s, lost) && s.host.link.Up? && s.sessions != [] && ForgetsSafely(s, l, lost)
    ensures Covered(Settled(s, id, l, ready), lost)
  {
    if l != s.host.ledger {
      assert s.sessions[0] == Live(s);
    }
  }

  lemma SettledIsLinked(s: System, l: Ledger, ready: bool, lost: set<Control>)
    requires Inv(s, lost) && s.host.link.Up? && Live(s).responses != [] && Live(s).responses[0].id != 0
    requires ForgetsSafely(s, l, lost)
    ensures var t := Settled(Taken(s), Live(s).responses[0].id, l, ready);
            && RequestsLinked(Live(t), t.host.link) && ResponsesLinked(Live(t), t.host.link)
            && PendingNumbered(t.host.link) && SnapshotCovers(Live(t), t.host, lost)
  {
    hide ResponsesSound, Phase, Covered;
  }

  lemma SettledKeepsReleases(s: System, l: Ledger, ready: bool, lost: set<Control>)
    requires Inv(s, lost) && s.host.link.Up? && Live(s).responses != [] && Live(s).responses[0].id != 0
    requires ForgetsSafely(s, l, lost)
    ensures var t := Settled(Taken(s), Live(s).responses[0].id, l, ready); ResponsesSound(t, Live(t), lost)
  {
    hide RequestsLinked, SnapshotCovers, PendingNumbered, Phase;
    var live, t := Live(s), Settled(Taken(s), Live(s).responses[0].id, l, ready);
    forall i | 0 <= i < |Live(t).responses| && Live(t).responses[i].done && Live(t).responses[i].id in t.host.link.pending
      ensures ReleasesHold(t, Live(t), Live(t).responses[i].id, t.host.link.pending[Live(t).responses[i].id], lost)
    {
      assert Live(t).responses[i] == live.responses[i + 1];
      assert ReleasesHold(s, live, live.responses[i + 1].id, s.host.link.pending[live.responses[i + 1].id], lost);
    }
  }

  lemma SettledKeeps(s: System, l: Ledger, ready: bool, lost: set<Control>)
    requires Inv(s, lost) && s.host.link.Up? && Live(s).responses != [] && Live(s).responses[0].id != 0
    requires ForgetsSafely(s, l, lost)
    requires Clean(s.host.(ready := ready)) ==>
               Clean(s.host) || (|s.sessions| == 1 && s.held + Presses(Live(s).requests) <= lost)
    requires s.host.ready ==> ready
    ensures Inv(Settled(Taken(s), Live(s).responses[0].id, l, ready), lost)
  {
    hide RequestsLinked, ResponsesLinked, SnapshotCovers, ResponsesSound, Covered;
    var id, t := Live(s).responses[0].id, Settled(Taken(s), Live(s).responses[0].id, l, ready);
    TakenIsCovered(s, lost);
    SettledIsCovered(Taken(s), id, l, ready, lost);
    SettledIsLinked(s, l, ready, lost);
    SettledKeepsReleases(s, l, ready, lost);
    assert Phase(t, Live(t), lost) by {
      assert forall r :: r in Live(s).requests && r.command.Press? ==> r.command.control in Presses(Live(s).requests);
    }
  }

  lemma ReceivesKeeps(s: System, lost: set<Control>)
    requires Inv(s, lost) && Enabled(s, Receives)
    ensures Inv(Apply(s, Receives), lost)
  {
    hide RequestsLinked, SnapshotCovers, Covered, Acknowledge;
    var r, h := Live(s).responses[0], s.host;
    var t := Apply(s, Receives);
    TakenIsCovered(s, lost);
    if r.id == 0 || r.id !in h.link.pending || h.link.pending[r.id].expired || (h.link.pending[r.id].recovery && !r.done) {
      LoseKeeps(Taken(s), lost);
      TakenKeeps(s, lost);
    } else {
      var p := h.link.pending[r.id];
      if r.done {
        assert ReleasesHold(s, Live(s), r.id, p, lost);
        AcknowledgeForgetsSafely(s, r.id, lost);
      }
      SettledKeeps(s, t.host.ledger, t.host.ready, lost);
      assert t == Settled(Taken(s), r.id, t.host.ledger, t.host.ready);
    }
  }

  // ----- executing a request -----

  lemma ExecutedIsCovered(s: System, ok: bool, after: set<Control>, lost: set<Control>)
    requires Covered(s, lost) && Enabled(s, Executes(ok, after))
    ensures Covered(Apply(s, Executes(ok, after)), lost)
  {
    var t := Apply(s, Executes(ok, after));
    PressesRest(s.sessions[0].requests);
    assert forall i :: 0 < i < |s.sessions| ==> t.sessions[i] == s.sessions[i];
  }

  /** Only the session that owns the desktop runs, so with others waiting the live one does not change. */
  lemma PredecessorExecutes(s: System, ok: bool, after: set<Control>, lost: set<Control>)
    requires Inv(s, lost) && s.host.link.Up? && |s.sessions| > 1 && Enabled(s, Executes(ok, after))
    ensures Inv(Apply(s, Executes(ok, after)), lost)
  {
    hide Covered, RequestsLinked, ResponsesLinked, SnapshotCovers;
    var t := Apply(s, Executes(ok, after));
    ExecutedIsCovered(s, ok, after, lost);
    var live := Live(s);
    assert Live(t) == live;
    forall i | 0 <= i < |live.responses| && live.responses[i].done && live.responses[i].id in t.host.link.pending
      ensures ReleasesHold(t, live, live.responses[i].id, t.host.link.pending[live.responses[i].id], lost)
    {
      assert ReleasesHold(s, live, live.responses[i].id, s.host.link.pending[live.responses[i].id], lost);
    }
  }

  lemma ExecutedRequestsLinked(live: Session, link: Link, ok: bool)
    requires live.requests != [] && link.Up? && live.last <= link.next && RequestsLinked(live, link)
    ensures RequestsLinked(Executed(live, ok), link) && Executed(live, ok).last <= link.next
  {
    hide OwnAfter;
    assert forall i :: 0 <= i < |live.requests| - 1 ==> live.requests[1..][i] == live.requests[i + 1];
  }

  lemma ExecutedResponsesLinked(live: Session, link: Link, ok: bool)
    requires live.requests != [] && link.Up? && RequestsLinked(live, link) && ResponsesLinked(live, link)
    ensures ResponsesLinked(Executed(live, ok), link)
  {
    hide OwnAfter;
    var r := live.requests[0];
    assert r.id != 0 ==> live.last < r.id && r.id in link.pending;
    hide RequestsLinked;
  }

  lemma ExecutedKeepsSnapshot(live: Session, h: Host, ok: bool, lost: set<Control>)
    requires live.requests != [] && h.link.Up? && SnapshotCovers(live, h, lost)
    ensures SnapshotCovers(Executed(live, ok), h, lost)
  {
    PressesRest(live.requests);
    assert forall r :: r in live.requests[1..] ==> r in live.requests;
  }

  lemma LiveExecutesPhase(s: System, ok: bool, after: set<Control>, lost: set<Control>)
    requires Inv(s, lost) && s.host.link.Up? && |s.sessions| == 1 && Enabled(s, Executes(ok, after))
    ensures Phase(Apply(s, Executes(ok, after)), Live(Apply(s, Executes(ok, after))), lost)
  {
    hide Covered, ResponsesLinked, SnapshotCovers, ResponsesSound;
    var live := Live(s);
    assert forall r :: r in live.requests[1..] ==> r in live.requests;
  }

  /** The answer to the request just executed promises no more than the hardware shows. */
  lemma NewAnswerIsSound(s: System, ok: bool, after: set<Control>, lost: set<Control>)
    requires Inv(s, lost) && s.host.link.Up? && |s.sessions| == 1 && Enabled(s, Executes(ok, after))
    requires ok && Accepts(Live(s), Live(s).requests[0]) && Live(s).requests[0].id != 0
    ensures var t, id := Apply(s, Executes(ok, after)), Live(s).requests[0].id;
            ReleasesHold(t, Live(t), id, t.host.link.pending[id], lost)
  {
    hide ResponsesLinked, ResponsesSound, RecoverAccepted;
    var live := Live(s);
    PressesRest(live.requests);
    if Clean(s.host) {
      LaterPressesAreLater(s, lost);
    }
  }

  /** What the requests after the first one press is in the ledger under their later numbers. */
  lemma LaterPressesAreLater(s: System, lost: set<Control>)
    requires s.host.link.Up? && s.sessions != [] && LiveInv(s, lost) && Clean(s.host)
    requires Live(s).requests != [] && Live(s).requests[0].id != 0
    ensures forall c :: c in Presses(Live(s).requests[1..]) - lost ==>
              c in s.host.ledger && s.host.ledger[c] > Live(s).requests[0].id
  {
    hide ResponsesLinked, ResponsesSound, SnapshotCovers, PendingNumbered;
    var live := Live(s);
    forall c | c in Presses(live.requests[1..]) - lost
      ensures c in s.host.ledger && s.host.ledger[c] > live.requests[0].id
    {
      var q :| q in live.requests[1..] && q.command == Press(c);
      var j :| 0 < j < |live.requests| && live.requests[j] == q;
    }
  }

  lemma LiveExecutesReleases(s: System, ok: bool, after: set<Control>, lost: set<Control>)
    requires Inv(s, lost) && s.host.link.Up? && |s.sessions| == 1 && Enabled(s, Executes(ok, after))
    ensures var t := Apply(s, Executes(ok, after)); ResponsesSound(t, Live(t), lost)
  {
    hide Covered, RequestsLinked, ResponsesLinked, SnapshotCovers, Phase, PendingNumbered, ReleasesHold, RecoverAccepted;
    var live, t := Live(s), Apply(s, Executes(ok, after));
    var r := live.requests[0];
    AnswerIsNumbered(s, lost);
    forall i | 0 <= i < |Live(t).responses| && Live(t).responses[i].done && Live(t).responses[i].id in t.host.link.pending
      ensures ReleasesHold(t, Live(t), Live(t).responses[i].id, t.host.link.pending[Live(t).responses[i].id], lost)
    {
      if i < |live.responses| {
        assert Live(t).responses[i] == live.responses[i];
        OldAnswerStaysSound(s, ok, after, i, lost);
      } else {
        assert Live(t).responses[i].id == r.id;
        NewAnswerIsSound(s, ok, after, lost);
      }
    }
  }

  /** Nothing pending has number 0, so an answer that settles something has a number. */
  lemma AnswerIsNumbered(s: System, lost: set<Control>)
    requires Inv(s, lost) && s.host.link.Up?
    ensures 0 !in s.host.link.pending
  {
    hide Covered, RequestsLinked, ResponsesLinked, SnapshotCovers, Phase, ResponsesSound;
  }

  lemma OldAnswerStaysSound(s: System, ok: bool, after: set<Control>, i: nat, lost: set<Control>)
    requires Inv(s, lost) && s.host.link.Up? && |s.sessions| == 1 && Enabled(s, Executes(ok, after))
    requires i < |Live(s).responses| && Live(s).responses[i].done && Live(s).responses[i].id in s.host.link.pending
    ensures var t, id := Apply(s, Executes(ok, after)), Live(s).responses[i].id;
            ReleasesHold(t, Live(t), id, t.host.link.pending[id], lost)
  {
    hide ResponsesLinked, RequestsLinked, SnapshotCovers, Phase, RecoverAccepted;
    PressesRest(Live(s).requests);
    var id := Live(s).responses[i].id;
    assert ReleasesHold(s, Live(s), id, s.host.link.pending[id], lost);
  }

  lemma ExecutesKeeps(s: System, ok: bool, after: set<Control>, lost: set<Control>)
    requires Inv(s, lost) && Enabled(s, Executes(ok, after))
    ensures Inv(Apply(s, Executes(ok, after)), lost)
  {
    ExecutedIsCovered(s, ok, after, lost);
    hide Covered, RequestsLinked, ResponsesLinked, SnapshotCovers, ResponsesSound, Phase;
    if s.host.link.Up? {
      if |s.sessions| > 1 {
        PredecessorExecutes(s, ok, after, lost);
      } else {
        ExecutedRequestsLinked(Live(s), s.host.link, ok);
        ExecutedResponsesLinked(Live(s), s.host.link, ok);
        ExecutedKeepsSnapshot(Live(s), s.host, ok, lost);
        LiveExecutesPhase(s, ok, after, lost);
        LiveExecutesReleases(s, ok, after, lost);
      }
    }
  }

  // ----- the remaining steps -----

  lemma ExpiresKeepsReleases(s: System, id: nat, lost: set<Control>)
    requires Inv(s, lost) && Enabled(s, Expires(id))
    ensures var t := Apply(s, Expires(id)); ResponsesSound(t, Live(t), lost)
  {
    hide RequestsLinked, ResponsesLinked, SnapshotCovers, Phase, Covered;
    var live, t := Live(s), Apply(s, Expires(id));
    forall i | 0 <= i < |live.responses| && live.responses[i].done && live.responses[i].id in t.host.link.pending
      ensures ReleasesHold(t, live, live.responses[i].id, t.host.link.pending[live.responses[i].id], lost)
    {
      assert ReleasesHold(s, live, live.responses[i].id, s.host.link.pending[live.responses[i].id], lost);
    }
  }

  lemma ExpiresKeeps(s: System, id: nat, lost: set<Control>)
    requires Inv(s, lost) && Enabled(s, Expires(id))
    ensures Inv(Apply(s, Expires(id)), lost)
  {
    hide ResponsesSound, ReleasesHold;
    ExpiresKeepsReleases(s, id, lost);
  }

  lemma HeartbeatKeepsReleases(s: System, lost: set<Control>)
    requires Inv(s, lost) && Enabled(s, Heartbeat)
    ensures var t := Apply(s, Heartbeat); ResponsesSound(t, Live(t), lost)
  {
    hide RequestsLinked, ResponsesLinked, SnapshotCovers, Phase, Covered, PendingNumbered;
    var live, t := Live(s), Apply(s, Heartbeat);
    PressesAppend(live.requests, Request(0, Other, false));
    forall i | 0 <= i < |live.responses| && live.responses[i].done && live.responses[i].id in t.host.link.pending
      ensures ReleasesHold(t, Live(t), live.responses[i].id, t.host.link.pending[live.responses[i].id], lost)
    {
      assert ReleasesHold(s, live, live.responses[i].id, s.host.link.pending[live.responses[i].id], lost);
    }
  }

  lemma HeartbeatKeeps(s: System, lost: set<Control>)
    requires Inv(s, lost) && Enabled(s, Heartbeat)
    ensures Inv(Apply(s, Heartbeat), lost)
  {
    hide ResponsesSound, ReleasesHold;
    var live, t := Live(s), Apply(s, Heartbeat);
    HeartbeatKeepsReleases(s, lost);
    PressesAppend(live.requests, Request(0, Other, false));
    assert forall i :: 0 <= i < |s.sessions| - 1 ==> t.sessions[i] == s.sessions[i];
    assert forall r :: r in Live(t).requests ==> r in live.requests || r == Request(0, Other, false);
  }

  lemma DiesKeepsReleases(s: System, after: set<Control>, lost: set<Control>)
    requires Inv(s, lost) && Enabled(s, Dies(after)) && s.host.link.Up?
    ensures var t := Apply(s, Dies(after)); ResponsesSound(t, Live(t), lost)
  {
    hide RequestsLinked, ResponsesLinked, SnapshotCovers, Phase, Covered, PendingNumbered;
    var live, t := Live(s), Apply(s, Dies(after));
    assert Live(t).requests == live.requests && Live(t).responses == live.responses;
    forall i | 0 <= i < |live.responses| && live.responses[i].done && live.responses[i].id in t.host.link.pending
      ensures ReleasesHold(t, Live(t), live.responses[i].id, t.host.link.pending[live.responses[i].id], lost)
    {
      assert ReleasesHold(s, live, live.responses[i].id, s.host.link.pending[live.responses[i].id], lost);
    }
  }

  lemma DiesKeeps(s: System, after: set<Control>, lost: set<Control>)
    requires Inv(s, lost) && Enabled(s, Dies(after))
    ensures Inv(Apply(s, Dies(after)), lost)
  {
    hide ResponsesSound, ReleasesHold;
    if s.host.link.Up? {
      DiesKeepsReleases(s, after, lost);
    }
  }

  lemma MoreLost(s: System, lost: set<Control>, more: set<Control>)
    requires Inv(s, lost)
    ensures Inv(s, lost + more)
  {
    if s.host.link.Up? {
      MoreLostLive(s, lost, more);
    }
  }

  lemma MoreLostLive(s: System, lost: set<Control>, more: set<Control>)
    requires s.host.link.Up? && s.sessions != [] && LiveInv(s, lost)
    ensures LiveInv(s, lost + more)
  {
    hide RequestsLinked, ResponsesLinked, PendingNumbered;
    var live := Live(s);
    forall i | 0 <= i < |live.responses| && live.responses[i].done && live.responses[i].id in s.host.link.pending
      ensures ReleasesHold(s, live, live.responses[i].id, s.host.link.pending[live.responses[i].id], lost + more)
    {
      assert ReleasesHold(s, live, live.responses[i].id, s.host.link.pending[live.responses[i].id], lost);
    }
  }

  /** Every step keeps the invariant, with what it loses sight of counted as lost. */
  lemma StepKeeps(s: System, step: Step, lost: set<Control>)
    requires Inv(s, lost) && Enabled(s, step)
    ensures Inv(Apply(s, step), lost + LostBy(s, step))
  {
    hide Inv, Enabled, Apply, LostBy;
    var all := lost + LostBy(s, step);
    MoreLost(s, lost, LostBy(s, step));
    match step
    case Opens(_, _) => OpensKeeps(s, step, all);
    case Submits(_, _) => SubmitsKeeps(s, step, all);
    case Heartbeat => HeartbeatKeeps(s, all);
    case Expires(id) => ExpiresKeeps(s, id, all);
    case Executes(ok, after) => ExecutesKeeps(s, ok, after, all);
    case Receives => ReceivesKeeps(s, all);
    case Loses => LosesKeeps(s, all);
    case Dies(after) => DiesKeeps(s, after, all);
  }

  lemma LosesKeeps(s: System, lost: set<Control>)
    requires Inv(s, lost) && Enabled(s, Loses)
    ensures Inv(Apply(s, Loses), lost)
  {
    LoseKeeps(s, lost);
  }
}
