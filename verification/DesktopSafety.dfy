/**
 Safety of the desktop state machine over whole runs: who may drive the keyboard
 and mouse, and why an update can never start over a stuck key.
 */
module DesktopSafety {
  import opened Basics
  import opened Maintenance
  import opened DesktopModel

  // ----- runs -----

  /** One lock-protected step of the daemon, or of the world around it. */
  datatype Op =
    | DoAttach(valid: Credentials, connection: nat, client: Octets, mode: KeyboardMode, now: nat, before: set<nat>)
    | DoDetach(valid: Credentials, connection: nat, id: nat, now: nat, before: set<nat>)
    | DoRenew(valid: Credentials, connection: nat, id: nat, now: nat, before: set<nat>)
    | DoSetControl(valid: Credentials, connection: nat, id: nat, now: nat, action: ControlAction, before: set<nat>)
    | DoConfigure(valid: Credentials, connection: nat, id: nat, now: nat, layout: nat, requested: seq<Viewport>, budget: nat, before: set<nat>)
    | DoLayoutChanged
    | DoInput(valid: Credentials, connection: nat, now: nat, frame: Frame, before: set<nat>)
    | DoExpire(valid: Credentials, now: nat, before: set<nat>)
    | DoDisconnect(connection: nat, before: set<nat>)
    | DoRemove(id: nat)
    | DoRefreshLayout(displays: Displays)
    | DoFeedback(valid: Credentials, connection: nat, now: nat, frame: Frame, configured: bool, before: set<nat>)
    | DoStreamLost(id: nat, epoch: nat)
    | DoReconcile(recovery: Recovery)
    /** The operating system changes on its own: controls come up, or anything at all once a release went unconfirmed. */
    | OsDrifts(held: set<Control>)
    /** Other work enters or leaves the gate. */
    | OtherWorkEnters
    | OtherWorkLeaves
    | DrainBegins
    | DrainEnds

  /** Every operation but input; none of them hands an event of a client to the operating system. */
  function Quiet(s: State, op: Op): Done
    requires !op.DoInput?
  {
    match op
    case DoAttach(valid, connection, client, mode, now, before) => Attach(s, valid, connection, client, mode, now, before)
    case DoDetach(valid, connection, id, now, before) => Detach(s, valid, connection, id, now, before)
    case DoRenew(valid, connection, id, now, before) => Renew(s, valid, connection, id, now, before)
    case DoSetControl(valid, connection, id, now, action, before) => SetControl(s, valid, connection, id, now, action, before)
    case DoConfigure(valid, connection, id, now, layout, requested, budget, before) =>
      Configure(s, valid, connection, id, now, layout, requested, budget, before)
    case DoLayoutChanged => LayoutChanged(s)
    case DoExpire(valid, now, before) => Expire(s, valid, now, before)
    case DoDisconnect(connection, before) => Disconnect(s, connection, before)
    case DoRemove(id) => Remove(s, id)
    case DoRefreshLayout(displays) => RefreshLayout(s, displays)
    case DoFeedback(valid, connection, now, frame, configured, before) =>
      AcceptFeedback(s, valid, connection, now, frame, configured, before)
    case DoStreamLost(id, epoch) => StreamLost(s, id, epoch)
    case DoReconcile(recovery) => Reconcile(s, recovery)
    case OsDrifts(held) =>
      Done(if s.poisoned || held <= s.os.held then s.(os := s.os.(held := held)) else s, Ok)
    case OtherWorkEnters =>
      if s.gate.Admits() then Done(s.(gate := s.gate.Entered()), Ok) else Done(s, Err(Busy))
    case OtherWorkLeaves =>
      Done(if s.gate.active > |s.attachments| then s.(gate := s.gate.Left(1)) else s, Ok)
    case DrainBegins =>
      if s.gate.CanDrain() then Done(s.(gate := s.gate.(draining := true)), Ok) else Done(s, Err(Busy))
    case DrainEnds => Done(s.(gate := s.gate.(draining := false)), Ok)
  }

  function Apply(s: State, op: Op): Step {
    if op.DoInput? then Input(s, op.valid, op.connection, op.now, op.frame, op.before)
    else
      var d := Quiet(s, op);
      Step(d.state, d.result, None)
  }

  /** The state after the first `n` operations of a run. */
  function After(script: seq<Outcome>, ops: seq<Op>, n: nat): State
    requires n <= |ops|
  {
    if n == 0 then Init(script) else Apply(After(script, ops, n - 1), ops[n - 1]).state
  }

  /** What the `n`-th operation of a run answered and delivered. */
  function At(script: seq<Outcome>, ops: seq<Op>, n: nat): Step
    requires n < |ops|
  {
    Apply(After(script, ops, n), ops[n])
  }

  // ----- the invariant -----

  ghost predicate Counted(s: State) {
    && |s.attachments| <= s.gate.active
    && (s.gate.draining ==> s.gate.active == 0)
  }

  ghost predicate Identified(s: State) {
    && s.nextId <= MAX_SAFE
    && s.epoch <= MAX_SAFE
    && forall id :: id in s.attachments ==> id <= s.nextId
  }

  ghost predicate HolderLive(s: State) {
    s.holder.Some? ==> s.holder.value in s.attachments
  }

  /** Whether a recovery takes effect: admitted, and for another generation than the last one. */
  predicate Confirms(s: State, op: Op) {
    op.DoReconcile? && s.gate.Admits() && op.recovery.Recovered? && op.recovery.generation != s.generation
  }

  /** What an operation leaves down behind the program's back: only a confirmed recovery does. */
  function LeftBy(s: State, op: Op): set<Control> {
    if Confirms(s, op) then op.recovery.left else {}
  }

  /** What the confirmed recoveries among the first `n` operations left down. */
  function Strays(script: seq<Outcome>, ops: seq<Op>, n: nat): set<Control>
    requires n <= |ops|
  {
    if n == 0 then {} else Strays(script, ops, n - 1) + LeftBy(After(script, ops, n - 1), ops[n - 1])
  }

  /**
   While releases are confirmed, everything down is tracked, and nothing is down
   without a holder, apart from what recoveries left down.
   */
  ghost predicate HeldIsTracked(s: State, stray: set<Control>) {
    && (forall c :: c in s.os.held ==> Tracks(s.keys, s.buttons, c) || c in stray)
    && (s.holder.None? ==> s.os.held <= stray)
  }

  ghost predicate Inv(s: State, stray: set<Control>) {
    && Counted(s)
    && Identified(s)
    && HolderLive(s)
    && (if s.poisoned then s.attachments.Keys != {} else HeldIsTracked(s, stray))
  }

  /** How one operation may change the attachments: survivors keep or raise their sequence number, newcomers are new. */
  ghost predicate AttachmentsAge(s: State, t: State) {
    && s.nextId <= t.nextId
    && forall id :: id in t.attachments && id <= s.nextId ==>
         id in s.attachments && s.attachments[id].sequence <= t.attachments[id].sequence
  }

  /** Control never passes to anybody without a new epoch. */
  ghost predicate EpochFences(s: State, t: State) {
    && s.epoch <= t.epoch
    && (s.epoch == t.epoch ==> t.holder == s.holder || t.holder == None)
  }

  /** Expiring and authorizing only take attachments away, and either leave control alone or give it up. */
  ghost predicate Shrinks(s: State, t: State) {
    && t.nextId == s.nextId && t.layoutEpoch == s.layoutEpoch
    && (forall id :: id in t.attachments ==> id in s.attachments && t.attachments[id] == s.attachments[id])
    && (t.holder.Some? ==> t.holder == s.holder && t.epoch == s.epoch)
    && (!t.poisoned ==> !s.poisoned)
  }

  ghost predicate Evolves(s: State, t: State) {
    AttachmentsAge(s, t) && EpochFences(s, t)
  }

  // ----- building blocks -----

  lemma ForgetSize(s: State, ids: set<nat>)
    requires ids <= s.attachments.Keys
    ensures |Forget(s, ids).attachments| == |s.attachments| - |ids|
  {
    assert Forget(s, ids).attachments.Keys == s.attachments.Keys - ids;
  }

  lemma ReleaseKeeps(s: State, stray: set<Control>)
    requires Inv(s, stray)
    requires s.attachments.Keys != {}
    ensures Inv(ReleaseControl(s).state, stray) && Evolves(s, ReleaseControl(s).state)
  {
  }

  /** As after a failed send: anything may be down, and the attachment is still there. */
  lemma FailedSendIsContained(s: State, stray: set<Control>)
    requires Counted(s) && Identified(s) && HolderLive(s) && s.attachments.Keys != {}
    ensures Inv(ReleaseControl(s).state, stray) && Evolves(s, ReleaseControl(s).state)
    ensures ReleaseControl(s).state.attachments == s.attachments
  {
  }

  lemma ForgetKeeps(s: State, ids: set<nat>, stray: set<Control>)
    requires Inv(s, stray) && ids <= s.attachments.Keys
    requires s.holder.Some? ==> s.holder.value !in ids
    requires s.poisoned ==> ids != s.attachments.Keys
    ensures Inv(Forget(s, ids), stray) && Evolves(s, Forget(s, ids))
  {
    ForgetSize(s, ids);
    if s.poisoned {
      var id :| id in s.attachments.Keys - ids;
      assert id in Forget(s, ids).attachments.Keys;
    }
  }

  lemma RemoveAllKeeps(s: State, doomed: set<nat>, before: set<nat>, stray: set<Control>)
    requires Inv(s, stray) && doomed <= s.attachments.Keys
    ensures Inv(RemoveAll(s, doomed, before).state, stray) && Evolves(s, RemoveAll(s, doomed, before).state)
    ensures Shrinks(s, RemoveAll(s, doomed, before).state)
    ensures var p := RemoveAll(s, doomed, before); p.result.Ok? || (p.result.Err? && p.state.poisoned)
  {
    if doomed != {} && !s.poisoned {
      if s.holder.Some? && s.holder.value in doomed {
        ReleaseKeeps(s, stray);
        var r := ReleaseControl(s);
        assert s.holder.value in r.state.attachments;
        ForgetKeeps(r.state, if r.result.Err? then before * doomed - {s.holder.value} else doomed, stray);
      } else {
        ForgetKeeps(s, doomed, stray);
      }
    }
  }

  /** Removing any number, attached or not: with no attachment of that number only control can change. */
  lemma RemoveKeeps(s: State, id: nat, stray: set<Control>)
    requires Inv(s, stray)
    ensures Inv(Remove(s, id).state, stray) && Evolves(s, Remove(s, id).state)
    ensures id !in s.attachments ==> Remove(s, id).state == s
  {
    hide ReleaseControl;
    if id in s.attachments {
      RemoveOneIsRemoveAll(s, id);
      RemoveAllKeeps(s, {id}, {}, stray);
    } else {
      assert {id} * s.attachments.Keys == {};
      NothingForgotten(s);
    }
  }

  lemma RemoveOneIsRemoveAll(s: State, id: nat)
    requires id in s.attachments
    ensures Remove(s, id) == RemoveAll(s, {id}, {})
  {
    hide ReleaseControl;
    assert {id} * s.attachments.Keys == {id};
    assert {} * {id} - {id} == {};
    if s.holder == Some(id) {
      NothingForgotten(ReleaseControl(s).state);
    }
  }

  lemma NothingForgotten(s: State)
    ensures Forget(s, {}) == s
  {
    assert s.attachments - {} == s.attachments;
  }

  lemma ExpireKeeps(s: State, valid: Credentials, now: nat, before: set<nat>, stray: set<Control>)
    requires Inv(s, stray)
    ensures var p := Expire(s, valid, now, before);
            Inv(p.state, stray) && Evolves(s, p.state) && Shrinks(s, p.state) && (p.result.Ok? || (p.result.Err? && p.state.poisoned))
  {
    hide RemoveAll, Inv, Evolves;
    RemoveAllKeeps(s, Dead(s, valid, now), before, stray);
  }

  lemma AuthorizeKeeps(s: State, valid: Credentials, connection: nat, id: nat, now: nat, before: set<nat>, stray: set<Control>)
    requires Inv(s, stray)
    ensures var p := Authorize(s, valid, connection, id, now, before);
            && Inv(p.state, stray) && Evolves(s, p.state) && Shrinks(s, p.state)
            && (p.result.Err? || (p.result.Ok? && id in p.state.attachments && !p.state.poisoned))
  {
    hide Expire, Inv, Evolves;
    ExpireKeeps(s, valid, now, before, stray);
  }

  /** Changing one attachment without touching its identity keeps everything. */
  lemma UpdateKeeps(s: State, id: nat, a: Attachment, stray: set<Control>)
    requires Inv(s, stray) && id in s.attachments && s.attachments[id].sequence <= a.sequence
    ensures var t := s.(attachments := s.attachments[id := a]); Inv(t, stray) && Evolves(s, t)
  {
    assert s.attachments[id := a].Keys == s.attachments.Keys;
  }

  lemma EvolvesOn(s: State, t: State, u: State)
    requires Evolves(s, t) && Evolves(t, u)
    ensures Evolves(s, u)
  {
  }

  lemma NotedKeepsTheRest(s: State, event: Event)
    ensures Noted(s, event) == s.(keys := Noted(s, event).keys, buttons := Noted(s, event).buttons)
  {
  }

  /** After a successful send everything down is tracked: the bookkeeping did what the hardware did. */
  lemma SentIsTracked(s: State, event: Event, stray: set<Control>)
    requires HeldIsTracked(s, stray) && s.holder.Some? && SendSucceeds(s.os)
    ensures HeldIsTracked(Noted(s, event).(os := AfterSend(s.os, event)), stray)
  {
  }

  lemma DeliverKeeps(s: State, frame: Frame, stray: set<Control>)
    requires Inv(s, stray) && !s.poisoned && s.holder == Some(frame.attach)
    ensures Inv(Deliver(s, frame).state, stray) && Evolves(s, Deliver(s, frame).state)
    ensures Deliver(s, frame).delivered == Some(Delivery(frame.attach, frame.epoch, frame.sequence, frame.event))
    ensures Deliver(s, frame).state.attachments == s.attachments
  {
    hide ReleaseControl, AfterSend, Effect, Noted;
    var sent := Noted(s, frame.event).(os := AfterSend(s.os, frame.event));
    NotedKeepsTheRest(s, frame.event);
    if SendSucceeds(s.os) {
      SentIsTracked(s, frame.event, stray);
    } else {
      FailedSendIsContained(sent, stray);
    }
  }

  /** What lets a client act on an attachment: its own connection, a running lease, a valid credential. */
  ghost predicate Entitled(s: State, valid: Credentials, connection: nat, id: nat, now: nat) {
    && id in s.attachments
    && s.attachments[id].connection == connection
    && now < s.attachments[id].deadline
    && valid(s.attachments[id].client, now)
  }

  /** Authorization succeeds exactly for entitled callers of a machine whose expiries all went through. */
  lemma AuthorizedIffEntitled(s: State, valid: Credentials, connection: nat, id: nat, now: nat, before: set<nat>, stray: set<Control>)
    requires Inv(s, stray)
    ensures Authorize(s, valid, connection, id, now, before).result.Ok?
       <==> Entitled(s, valid, connection, id, now) && Expire(s, valid, now, before).result.Ok? && !s.poisoned
  {
    hide Expire, Inv, Evolves, Dead;
    ExpireKeeps(s, valid, now, before, stray);
    if Expire(s, valid, now, before).result.Ok? {
      ExpireLeavesTheLiving(s, valid, now, before);
      DeadIffNotEntitled(s, valid, connection, id, now);
    }
  }

  /** A clean expiry takes away exactly the dead, and nothing else of an attachment or of the poison. */
  lemma ExpireLeavesTheLiving(s: State, valid: Credentials, now: nat, before: set<nat>)
    requires Expire(s, valid, now, before).result.Ok?
    ensures var t := Expire(s, valid, now, before).state;
            t.attachments == s.attachments - Dead(s, valid, now) && t.poisoned == s.poisoned
  {
    hide Dead;
    assert s.attachments - {} == s.attachments;
  }

  lemma DeadIffNotEntitled(s: State, valid: Credentials, connection: nat, id: nat, now: nat)
    ensures Entitled(s, valid, connection, id, now) <==>
            id in s.attachments - Dead(s, valid, now) && s.attachments[id].connection == connection
  {
  }

  /**
   A delivered event was sent by the entitled client of the attachment; if it aims
   at the screen, its point lies inside a viewport configured for the current layout.
   */
  lemma DeliveryIsEntitled(s: State, valid: Credentials, connection: nat, now: nat, frame: Frame, before: set<nat>, stray: set<Control>)
    requires Inv(s, stray)
    requires Input(s, valid, connection, now, frame, before).delivered.Some?
    ensures Entitled(s, valid, connection, frame.attach, now)
    ensures Point(frame.event).Some? ==>
              var (v, x, y) := Point(frame.event).value;
              var views := s.attachments[frame.attach].viewports;
              && frame.layoutEpoch == s.layoutEpoch
              && v in views && Inside(x, views[v].width) && Inside(y, views[v].height)
  {
    hide Authorize, Expire, Deliver, Inv, EventError, Inside;
    AuthorizedIffEntitled(s, valid, connection, frame.attach, now, before, stray);
    AuthorizeKeeps(s, valid, connection, frame.attach, now, before, stray);
  }

  /**
   A delivered event is from the holder of the current epoch, under the next
   sequence number of that attachment, which is then spent; and a delivered press
   names a key or button the helper's recovery accepts.
   */
  lemma InputKeeps(s: State, valid: Credentials, connection: nat, now: nat, frame: Frame, before: set<nat>, stray: set<Control>)
    requires Inv(s, stray)
    ensures var p := Input(s, valid, connection, now, frame, before);
            && Inv(p.state, stray) && Evolves(s, p.state)
            && (p.delivered.Some? ==>
                  && p.delivered.value == Delivery(frame.attach, frame.epoch, frame.sequence, frame.event)
                  && s.holder == Some(frame.attach) && s.epoch == frame.epoch && !s.poisoned
                  && frame.attach in s.attachments && frame.attach in p.state.attachments
                  && frame.sequence == s.attachments[frame.attach].sequence + 1
                  && p.state.attachments[frame.attach].sequence == frame.sequence
                  && (frame.event.PhysicalKey? ==> 4 <= frame.event.usage <= 231)
                  && (frame.event.PointerButton? ==> 1 <= frame.event.button <= 5))
  {
    hide Authorize, Deliver, Inv, Evolves, PointError;
    AuthorizeKeeps(s, valid, connection, frame.attach, now, before, stray);
    var q := Authorize(s, valid, connection, frame.attach, now, before);
    var t := q.state;
    if q.result.Ok? && frame.sequence == t.attachments[frame.attach].sequence + 1 {
      var a := t.attachments[frame.attach].(sequence := frame.sequence);
      UpdateKeeps(t, frame.attach, a, stray);
      var u := t.(attachments := t.attachments[frame.attach := a]);
      EvolvesOn(s, t, u);
      if t.holder == Some(frame.attach) {
        DeliverKeeps(u, frame, stray);
        EvolvesOn(s, u, Deliver(u, frame).state);
      }
    }
  }

  /** Expiry cannot fail, and leaves control alone, while the holder itself is entitled. */
  lemma EntitledHolderSurvives(s: State, valid: Credentials, connection: nat, id: nat, now: nat, before: set<nat>)
    requires Entitled(s, valid, connection, id, now) && s.holder == Some(id) && !s.poisoned
    ensures var p := Authorize(s, valid, connection, id, now, before);
            && p.result.Ok? && p.state == s.(attachments := p.state.attachments, gate := p.state.gate)
            && id in p.state.attachments && p.state.attachments[id] == s.attachments[id]
  {
  }

  /**
   Input reaches the operating system exactly if the entitled holder sends it under
   the current epoch and its next number, and the event itself is admissible.
   */
  lemma DeliveredIff(s: State, valid: Credentials, connection: nat, now: nat, frame: Frame, before: set<nat>, stray: set<Control>)
    requires Inv(s, stray)
    ensures Input(s, valid, connection, now, frame, before).delivered.Some? <==>
            && Entitled(s, valid, connection, frame.attach, now) && !s.poisoned
            && s.holder == Some(frame.attach) && s.epoch == frame.epoch
            && frame.sequence == s.attachments[frame.attach].sequence + 1 && frame.sequence <= MAX_SAFE
            && PointError(s, s.attachments[frame.attach], frame).None?
            && EventError(s, s.attachments[frame.attach], frame.event).None?
  {
    hide Authorize, Expire, Deliver, Inv, PointError, EventError;
    if Entitled(s, valid, connection, frame.attach, now) && s.holder == Some(frame.attach) && !s.poisoned {
      EntitledHolderSurvives(s, valid, connection, frame.attach, now, before);
      var t := Authorize(s, valid, connection, frame.attach, now, before).state;
      var a := t.attachments[frame.attach];
      var u := t.(attachments := t.attachments[frame.attach := a.(sequence := frame.sequence)]);
      SameErrors(s, u, a, frame);
      DeliverDelivers(u, frame);
    } else if Input(s, valid, connection, now, frame, before).delivered.Some? {
      DeliveryIsEntitled(s, valid, connection, now, frame, before, stray);
      InputKeeps(s, valid, connection, now, frame, before, stray);
    }
  }

  lemma SameErrors(s: State, u: State, a: Attachment, frame: Frame)
    requires u.layoutEpoch == s.layoutEpoch && u.keys == s.keys
    ensures PointError(u, a, frame) == PointError(s, a, frame) && EventError(u, a, frame.event) == EventError(s, a, frame.event)
  {
  }

  lemma DeliverDelivers(u: State, frame: Frame)
    ensures Deliver(u, frame).delivered.Some?
  {
  }

  /** Handing control over: the release comes first, and it opens a new epoch. */
  lemma GrantKeeps(s: State, id: nat, stray: set<Control>)
    requires Inv(s, stray) && id in s.attachments
    ensures var r := ReleaseControl(s);
            && Inv(r.state, stray) && Evolves(s, r.state)
            && (r.result.Err? || (r.result.Ok? && Inv(r.state.(holder := Some(id)), stray) && Evolves(s, r.state.(holder := Some(id)))))
  {
    ReleaseKeeps(s, stray);
  }

  lemma SetControlKeeps(s: State, valid: Credentials, connection: nat, id: nat, now: nat,
                        action: ControlAction, before: set<nat>, stray: set<Control>)
    requires Inv(s, stray)
    ensures var p := SetControl(s, valid, connection, id, now, action, before); Inv(p.state, stray) && Evolves(s, p.state)
  {
    hide Authorize, ReleaseControl, Inv, Evolves;
    AuthorizeKeeps(s, valid, connection, id, now, before, stray);
    var a := Authorize(s, valid, connection, id, now, before);
    if a.result.Ok? {
      GrantKeeps(a.state, id, stray);
      var r := ReleaseControl(a.state);
      EvolvesOn(s, a.state, r.state);
      if r.result.Ok? {
        EvolvesOn(s, a.state, r.state.(holder := Some(id)));
      }
    }
  }

  /** Reconciling keeps everything, if what it left down is counted among the strays. */
  lemma ReconcileKeeps(s: State, recovery: Recovery, stray: set<Control>)
    requires Inv(s, stray)
    ensures var t := Reconcile(s, recovery).state;
            Inv(t, stray + LeftBy(s, DoReconcile(recovery))) && Evolves(s, t)
  {
    assert s.attachments - s.attachments.Keys == map[];
  }

  lemma ReleaseHeldKeeps(s: State, stray: set<Control>)
    requires Inv(s, stray) && s.attachments.Keys != {}
    ensures Inv(ReleaseHeld(s).state, stray) && Evolves(s, ReleaseHeld(s).state)
  {
  }

  lemma RefreshLayoutKeeps(s: State, displays: Displays, stray: set<Control>)
    requires Inv(s, stray)
    ensures Inv(RefreshLayout(s, displays).state, stray) && Evolves(s, RefreshLayout(s, displays).state)
  {
    hide ReleaseHeld, LayoutChanged, Inv, Evolves;
    HolderIsAttached(s, stray);
    SameState(s);
    var r := if s.holder.Some? then ReleaseHeld(s) else Done(s, Ok);
    if s.holder.Some? {
      ReleaseHeldKeeps(s, stray);
    }
    LayoutChangedKeeps(r.state, stray);
    var l := LayoutChanged(r.state);
    EvolvesOn(s, r.state, l.state);
    DisplaysKeep(s, s, Some(displays), stray);
    DisplaysKeep(s, l.state, Some(displays), stray);
  }

  lemma HolderIsAttached(s: State, stray: set<Control>)
    requires Inv(s, stray)
    ensures s.holder.Some? ==> s.attachments.Keys != {}
  {
  }

  lemma SameState(s: State)
    ensures Evolves(s, s)
  {
  }

  lemma DisplaysKeep(s: State, t: State, displays: Option<Displays>, stray: set<Control>)
    requires Inv(t, stray) && Evolves(s, t)
    ensures Inv(t.(displays := displays), stray) && Evolves(s, t.(displays := displays))
  {
  }

  lemma FeedbackKeeps(s: State, valid: Credentials, connection: nat, now: nat, frame: Frame,
                      configured: bool, before: set<nat>, stray: set<Control>)
    requires Inv(s, stray)
    ensures var p := AcceptFeedback(s, valid, connection, now, frame, configured, before);
            Inv(p.state, stray) && Evolves(s, p.state)
  {
    hide Authorize, Inv, Evolves;
    AuthorizeKeeps(s, valid, connection, frame.attach, now, before, stray);
    var a := Authorize(s, valid, connection, frame.attach, now, before);
    if a.result.Ok? && frame.sequence == a.state.attachments[frame.attach].sequence + 1 {
      RenewKeeps(s, a.state, frame.attach, a.state.attachments[frame.attach].(sequence := frame.sequence), stray);
    }
  }

  // ----- one step -----

  lemma AttachKeeps(s: State, valid: Credentials, connection: nat, client: Octets, mode: KeyboardMode,
                    now: nat, before: set<nat>, stray: set<Control>)
    requires Inv(s, stray)
    ensures var p := Attach(s, valid, connection, client, mode, now, before);
            && Inv(p.state, stray) && Evolves(s, p.state)
            && (p.result.Attached? ==> p.result.id == s.nextId + 1 == p.state.nextId)
  {
    hide Expire, Inv, Evolves;
    ExpireKeeps(s, valid, now, before, stray);
    var t := Expire(s, valid, now, before).state;
    var p := Attach(s, valid, connection, client, mode, now, before);
    if p.result.Attached? {
      AdmitKeeps(t, p.state.attachments[p.result.id], stray);
      EvolvesOn(s, t, p.state);
    }
  }

  lemma AdmitKeeps(s: State, a: Attachment, stray: set<Control>)
    requires Inv(s, stray) && !s.poisoned && s.gate.Admits() && s.nextId + 1 <= MAX_SAFE
    ensures var t := s.(gate := s.gate.Entered(), nextId := s.nextId + 1,
                        attachments := s.attachments[s.nextId + 1 := a]);
            Inv(t, stray) && Evolves(s, t)
  {
    assert s.attachments[s.nextId + 1 := a].Keys == s.attachments.Keys + {s.nextId + 1};
  }

  lemma RenewKeeps(s: State, t: State, id: nat, a: Attachment, stray: set<Control>)
    requires Inv(t, stray) && Evolves(s, t)
    requires id in t.attachments && t.attachments[id].sequence <= a.sequence
    ensures var u := t.(attachments := t.attachments[id := a]); Inv(u, stray) && Evolves(s, u)
  {
    UpdateKeeps(t, id, a, stray);
    EvolvesOn(s, t, t.(attachments := t.attachments[id := a]));
  }

  lemma OwnerOpKeeps(s: State, op: Op, stray: set<Control>)
    requires Inv(s, stray)
    requires op.DoDetach? || op.DoRenew? || op.DoConfigure?
    ensures Inv(Apply(s, op).state, stray) && Evolves(s, Apply(s, op).state)
  {
    hide Authorize, Remove, Collect, Inv, Evolves;
    AuthorizeKeeps(s, op.valid, op.connection, op.id, op.now, op.before, stray);
    var a := Authorize(s, op.valid, op.connection, op.id, op.now, op.before);
    if a.result.Ok? {
      var t := a.state;
      if op.DoDetach? {
        RemoveKeeps(t, op.id, stray);
        EvolvesOn(s, t, Remove(t, op.id).state);
      } else if op.DoRenew? {
        RenewKeeps(s, t, op.id, t.attachments[op.id].(deadline := SaturatingAdd(op.now, LEASE_MS)), stray);
      } else {
        var c := Collect(op.requested, |op.requested|);
        if c.Collected? {
          RenewKeeps(s, t, op.id, t.attachments[op.id].(viewports := c.viewports), stray);
        }
      }
    }
  }

  lemma LayoutChangedKeeps(s: State, stray: set<Control>)
    requires Inv(s, stray)
    ensures Inv(LayoutChanged(s).state, stray) && Evolves(s, LayoutChanged(s).state)
  {
    var t := LayoutChanged(s).state;
    assert t.attachments.Keys == s.attachments.Keys;
    assert |t.attachments| == |t.attachments.Keys| == |s.attachments.Keys| == |s.attachments|;
  }

  lemma MoreStrays(s: State, stray: set<Control>, more: set<Control>)
    requires Inv(s, stray)
    ensures Inv(s, stray + more)
  {
  }

  /** What happens around the daemon: the hardware, other work, the updater. */
  lemma WorldKeeps(s: State, op: Op, stray: set<Control>)
    requires Inv(s, stray)
    requires op.OsDrifts? || op.OtherWorkEnters? || op.OtherWorkLeaves? || op.DrainBegins? || op.DrainEnds?
    ensures Inv(Apply(s, op).state, stray) && Evolves(s, Apply(s, op).state)
  {
  }

  /** Every operation but reconciliation, whatever the operating system answers. */
  lemma OrdinaryStepKeeps(s: State, op: Op, stray: set<Control>)
    requires Inv(s, stray) && !op.DoReconcile?
    ensures Inv(Apply(s, op).state, stray) && Evolves(s, Apply(s, op).state)
  {
    hide Inv, Evolves, Attach, SetControl, Input, Expire, RemoveAll, LayoutChanged, RefreshLayout, AcceptFeedback,
      Remove, ReleaseControl, Detach, Renew, Configure;
    match op
    case DoAttach(valid, connection, client, mode, now, before) => AttachKeeps(s, valid, connection, client, mode, now, before, stray);
    case DoSetControl(valid, connection, id, now, action, before) => SetControlKeeps(s, valid, connection, id, now, action, before, stray);
    case DoInput(valid, connection, now, frame, before) => InputKeeps(s, valid, connection, now, frame, before, stray);
    case DoExpire(valid, now, before) => ExpireKeeps(s, valid, now, before, stray);
    case DoDisconnect(connection, before) => RemoveAllKeeps(s, OnConnection(s, connection), before, stray);
    case DoRemove(id) => RemoveKeeps(s, id, stray);
    case DoRefreshLayout(displays) => RefreshLayoutKeeps(s, displays, stray);
    case DoFeedback(valid, connection, now, frame, configured, before) =>
      FeedbackKeeps(s, valid, connection, now, frame, configured, before, stray);
    case DoStreamLost(id, epoch) => StreamLostKeeps(s, id, epoch, stray);
    case DoLayoutChanged => LayoutChangedKeeps(s, stray);
    case DoDetach(_, _, _, _, _) => OwnerOpKeeps(s, op, stray);
    case DoRenew(_, _, _, _, _) => OwnerOpKeeps(s, op, stray);
    case DoConfigure(_, _, _, _, _, _, _, _) => OwnerOpKeeps(s, op, stray);
    case _ => WorldKeeps(s, op, stray);
  }

  lemma StreamLostKeeps(s: State, id: nat, epoch: nat, stray: set<Control>)
    requires Inv(s, stray)
    ensures Inv(StreamLost(s, id, epoch).state, stray) && Evolves(s, StreamLost(s, id, epoch).state)
  {
    if s.holder.Some? {
      ReleaseKeeps(s, stray);
    }
  }

  /** Every operation, whatever the operating system answers, keeps the invariant. */
  lemma StepKeeps(s: State, op: Op, stray: set<Control>)
    requires Inv(s, stray)
    ensures Inv(Apply(s, op).state, stray + LeftBy(s, op)) && Evolves(s, Apply(s, op).state)
  {
    hide Inv, Evolves, Reconcile;
    if op.DoReconcile? {
      ReconcileKeeps(s, op.recovery, stray);
    } else {
      OrdinaryStepKeeps(s, op, stray);
      MoreStrays(Apply(s, op).state, stray, LeftBy(s, op));
    }
  }

  // ----- whole runs -----

  lemma {:induction false} RunKeeps(script: seq<Outcome>, ops: seq<Op>, n: nat)
    requires n <= |ops|
    ensures Inv(After(script, ops, n), Strays(script, ops, n))
  {
    hide Apply, LeftBy;
    if n != 0 {
      RunKeeps(script, ops, n - 1);
      StepKeeps(After(script, ops, n - 1), ops[n - 1], Strays(script, ops, n - 1));
    }
  }

  lemma {:induction false} RunEvolves(script: seq<Outcome>, ops: seq<Op>, i: nat, j: nat)
    requires i <= j <= |ops|
    ensures Evolves(After(script, ops, i), After(script, ops, j))
    decreases j
  {
    hide Apply, LeftBy;
    if i < j {
      RunEvolves(script, ops, i, j - 1);
      RunKeeps(script, ops, j - 1);
      StepKeeps(After(script, ops, j - 1), ops[j - 1], Strays(script, ops, j - 1));
      EvolvesOn(After(script, ops, i), After(script, ops, j - 1), After(script, ops, j));
    }
  }

  /**
   While an update drain is granted, nothing is down but what a confirmed recovery
   left down. In every other state, what is down besides that is tracked for a live
   holder, or the unconfirmed release keeps the drain away.
   */
  lemma OnlyStraysUnderDrain(script: seq<Outcome>, ops: seq<Op>, n: nat)
    requires n <= |ops|
    ensures var s, stray := After(script, ops, n), Strays(script, ops, n);
            && (s.gate.draining ==> s.os.held <= stray && s.attachments == map[] && !s.poisoned)
            && (!(s.os.held <= stray) && !s.poisoned ==>
                  s.holder.Some? && s.holder.value in s.attachments
                  && forall c :: c in s.os.held - stray ==> Tracks(s.keys, s.buttons, c))
            && (s.poisoned ==> !s.gate.CanDrain() && !s.gate.draining)
  {
    RunKeeps(script, ops, n);
    var s := After(script, ops, n);
    assert s.attachments.Keys != {} ==> |s.attachments| > 0;
  }

  /** Every confirmed recovery among the first `n` operations left nothing down. */
  ghost predicate RecoveriesRelease(script: seq<Outcome>, ops: seq<Op>, n: nat)
    requires n <= |ops|
  {
    forall i :: 0 <= i < n ==> LeftBy(After(script, ops, i), ops[i]) == {}
  }

  lemma {:induction false} NoStrays(script: seq<Outcome>, ops: seq<Op>, n: nat)
    requires n <= |ops| && RecoveriesRelease(script, ops, n)
    ensures Strays(script, ops, n) == {}
  {
    hide LeftBy, Apply;
    if n != 0 {
      NoStrays(script, ops, n - 1);
      assert LeftBy(After(script, ops, n - 1), ops[n - 1]) == {};
    }
  }

  /**
   If every confirmed recovery released everything: while an update drain is granted,
   no key and no button is down; and whatever is down is tracked for a live holder, or
   the unconfirmed release keeps the drain away.
   */
  lemma DrainNeverOverStuckInput(script: seq<Outcome>, ops: seq<Op>, n: nat)
    requires n <= |ops| && RecoveriesRelease(script, ops, n)
    ensures var s := After(script, ops, n);
            && (s.gate.draining ==> s.os.held == {} && s.attachments == map[] && !s.poisoned)
            && (s.os.held != {} && !s.poisoned ==>
                  s.holder.Some? && s.holder.value in s.attachments
                  && forall c :: c in s.os.held ==> Tracks(s.keys, s.buttons, c))
            && (s.poisoned ==> !s.gate.CanDrain() && !s.gate.draining)
  {
    NoStrays(script, ops, n);
    OnlyStraysUnderDrain(script, ops, n);
  }

  /**
   The condition is exact, from any state: when a confirmed recovery has gone through
   and no other work is live, a drain is granted at once, and what it is granted over
   is what the recovery left down.
   */
  lemma DrainOverWhatRecoveryLeft(s: State, recovery: Recovery, stray: set<Control>)
    requires Inv(s, stray) && Confirms(s, DoReconcile(recovery))
    requires s.epoch < MAX_SAFE && s.layoutEpoch < MAX_SAFE && s.gate.active == |s.attachments|
    ensures var t := Apply(Apply(s, DoReconcile(recovery)).state, DrainBegins).state;
            && t.gate.draining && t.os.held == recovery.left
            && (t.os.held == {} <==> LeftBy(s, DoReconcile(recovery)) == {})
  {
    assert s.attachments - s.attachments.Keys == map[];
    assert |s.attachments.Keys| == |s.attachments|;
  }

  /** An epoch number has at most one control holder in a whole run, and it is a live attachment. */
  lemma OneHolderPerEpoch(script: seq<Outcome>, ops: seq<Op>, i: nat, j: nat)
    requires i <= j <= |ops|
    requires After(script, ops, i).epoch == After(script, ops, j).epoch
    requires After(script, ops, j).holder.Some?
    ensures After(script, ops, i).holder == After(script, ops, j).holder
    ensures After(script, ops, j).holder.value in After(script, ops, j).attachments
  {
    RunEvolvesWithin(script, ops, i, j);
    RunKeeps(script, ops, j);
  }

  /** Inside one epoch control can only be given up. */
  lemma {:induction false} RunEvolvesWithin(script: seq<Outcome>, ops: seq<Op>, i: nat, j: nat)
    requires i <= j <= |ops|
    requires After(script, ops, i).epoch == After(script, ops, j).epoch
    ensures After(script, ops, j).holder == After(script, ops, i).holder || After(script, ops, j).holder == None
  {
    RunEvolves(script, ops, i, j);
  }

  /** One step, as the runs below need it. */
  lemma StepDelivers(s: State, op: Op, stray: set<Control>)
    requires Inv(s, stray) && Apply(s, op).delivered.Some?
    ensures var t, d := Apply(s, op).state, Apply(s, op).delivered.value;
            && s.holder == Some(d.attach) && d.epoch == s.epoch && !s.poisoned
            && d.attach in s.attachments && d.sequence == s.attachments[d.attach].sequence + 1
            && d.attach in t.attachments && t.attachments[d.attach].sequence == d.sequence
  {
    hide Input, Quiet;
    InputKeeps(s, op.valid, op.connection, op.now, op.frame, op.before, stray);
  }

  /** Whatever is delivered comes from the holder of the current epoch while releases are confirmed. */
  lemma DeliveryIsTheHolders(script: seq<Outcome>, ops: seq<Op>, n: nat)
    requires n < |ops| && At(script, ops, n).delivered.Some?
    ensures var s, d := After(script, ops, n), At(script, ops, n).delivered.value;
            && s.holder == Some(d.attach) && d.attach in s.attachments && d.epoch == s.epoch && !s.poisoned
            && d.sequence == s.attachments[d.attach].sequence + 1
  {
    hide Apply;
    RunKeeps(script, ops, n);
    StepDelivers(After(script, ops, n), ops[n], Strays(script, ops, n));
  }

  /** Deliveries of one attachment carry strictly increasing numbers: none is repeated or reordered. */
  lemma DeliveriesAreOrdered(script: seq<Outcome>, ops: seq<Op>, i: nat, j: nat)
    requires i < j < |ops|
    requires At(script, ops, i).delivered.Some? && At(script, ops, j).delivered.Some?
    requires At(script, ops, i).delivered.value.attach == At(script, ops, j).delivered.value.attach
    ensures At(script, ops, i).delivered.value.sequence < At(script, ops, j).delivered.value.sequence
  {
    hide Apply;
    RunKeeps(script, ops, i);
    StepDelivers(After(script, ops, i), ops[i], Strays(script, ops, i));
    RunKeeps(script, ops, i + 1);
    RunEvolves(script, ops, i + 1, j);
    DeliveryIsTheHolders(script, ops, j);
  }

  /** Two deliveries under one epoch number are from the same attachment. */
  lemma EpochDeliveriesShareASource(script: seq<Outcome>, ops: seq<Op>, i: nat, j: nat)
    requires i <= j < |ops|
    requires At(script, ops, i).delivered.Some? && At(script, ops, j).delivered.Some?
    requires At(script, ops, i).delivered.value.epoch == At(script, ops, j).delivered.value.epoch
    ensures At(script, ops, i).delivered.value.attach == At(script, ops, j).delivered.value.attach
  {
    DeliveryIsTheHolders(script, ops, i);
    DeliveryIsTheHolders(script, ops, j);
    OneHolderPerEpoch(script, ops, i, j);
  }

  /** Attachment numbers are handed out once each, in increasing order. */
  lemma AttachmentIdsAreFresh(script: seq<Outcome>, ops: seq<Op>, i: nat, j: nat)
    requires i < j < |ops|
    requires At(script, ops, i).result.Attached? && At(script, ops, j).result.Attached?
    ensures At(script, ops, i).result.id < At(script, ops, j).result.id
  {
    hide Apply;
    AttachedIsNext(script, ops, i);
    AttachedIsNext(script, ops, j);
    RunEvolves(script, ops, i + 1, j);
  }

  lemma AttachedIsNext(script: seq<Outcome>, ops: seq<Op>, n: nat)
    requires n < |ops| && At(script, ops, n).result.Attached?
    ensures At(script, ops, n).result.id == After(script, ops, n).nextId + 1 == After(script, ops, n + 1).nextId
  {
    hide Apply;
    RunKeeps(script, ops, n);
    StepAttaches(After(script, ops, n), ops[n], Strays(script, ops, n));
  }

  lemma StepAttaches(s: State, op: Op, stray: set<Control>)
    requires Inv(s, stray) && Apply(s, op).result.Attached?
    ensures Apply(s, op).result.id == s.nextId + 1 == Apply(s, op).state.nextId
  {
    hide Dead, OnConnection, Collect, Forget, PointError, EventError, Noted, AfterSend, Authorize, RemoveAll, Attach,
      ReleaseControl, ReleaseHeld;
    OnlyAttachAttaches(s, op);
    AttachKeeps(s, op.valid, op.connection, op.client, op.mode, op.now, op.before, stray);
  }

  lemma OnlyAttachAttaches(s: State, op: Op)
    requires Apply(s, op).result.Attached?
    ensures op.DoAttach?
  {
    hide Dead, OnConnection, Collect, Forget, PointError, EventError, Noted, AfterSend, Attach;
  }

  lemma PoisonRefuses(s: State, valid: Credentials, connection: nat, id: nat, now: nat, before: set<nat>)
    requires s.poisoned
    ensures Authorize(s, valid, connection, id, now, before).result.Err?
    ensures Authorize(s, valid, connection, id, now, before).state == s
  {
    hide Dead;
  }

  /**
   Once a release goes unconfirmed the machine stays poisoned, delivers nothing,
   grants control to nobody and keeps its attachments, unless a recovery confirms a
   new helper generation, which clears them all.
   */
  lemma PoisonedStep(s: State, op: Op, stray: set<Control>)
    requires Inv(s, stray) && s.poisoned
    ensures var p := Apply(s, op);
            && p.delivered.None? && !p.result.Attached?
            && ((p.state.poisoned && p.state.attachments.Keys == s.attachments.Keys
                 && (p.state.holder == s.holder || p.state.holder == None))
                || (Confirms(s, op) && !p.state.poisoned && p.state.os.held == op.recovery.left && p.state.attachments == map[]))
  {
    hide Dead, OnConnection, Collect, PointError, EventError, Noted, AfterSend, Inside, Authorize;
    assert s.attachments - s.attachments.Keys == map[];
    if op.DoInput? {
      PoisonRefuses(s, op.valid, op.connection, op.frame.attach, op.now, op.before);
    } else if op.DoFeedback? {
      PoisonRefuses(s, op.valid, op.connection, op.frame.attach, op.now, op.before);
    } else if op.DoDetach? || op.DoRenew? || op.DoSetControl? || op.DoConfigure? {
      PoisonRefuses(s, op.valid, op.connection, op.id, op.now, op.before);
    }
  }

  /** Operations `i` up to `k` find the machine poisoned and deliver nothing; operation `k` ends that. */
  ghost predicate EndsPoison(script: seq<Outcome>, ops: seq<Op>, i: nat, k: nat)
    requires i <= k < |ops|
  {
    && Confirms(After(script, ops, k), ops[k]) && After(script, ops, k + 1).attachments == map[]
    && forall m :: i <= m <= k ==>
         && After(script, ops, m).poisoned && After(script, ops, m).attachments.Keys == After(script, ops, i).attachments.Keys
         && At(script, ops, m).delivered.None? && !At(script, ops, m).result.Attached?
  }

  /**
   Poison ends only with a confirmed recovery: between a poisoned state and one that
   is not there is one, and up to it nothing is delivered, nobody attaches and every
   attachment keeps its guard.
   */
  lemma {:induction false} PoisonedUntilRecovered(script: seq<Outcome>, ops: seq<Op>, i: nat, j: nat) returns (k: nat)
    requires i <= j <= |ops| && After(script, ops, i).poisoned && !After(script, ops, j).poisoned
    ensures i <= k < j && EndsPoison(script, ops, i, k)
    decreases j - i
  {
    hide Apply, Confirms;
    RunKeeps(script, ops, i);
    PoisonedStep(After(script, ops, i), ops[i], Strays(script, ops, i));
    if After(script, ops, i + 1).poisoned {
      k := PoisonedUntilRecovered(script, ops, i + 1, j);
    } else {
      k := i;
    }
  }
}
