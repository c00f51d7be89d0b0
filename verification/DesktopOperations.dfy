/** What each operation of the desktop does for its caller, said of the state before and after alone. */
module DesktopOperations {
  import opened Basics
  import opened Maintenance
  import opened DesktopModel
  import opened DesktopSafety

  // ----- control -----

  /** A release reaches the hardware exactly if the epoch can still grow and the send goes through. */
  predicate CanRelease(s: State) {
    s.epoch < MAX_SAFE && (s.os.script == [] || s.os.script[0].Sent?)
  }

  /** Control is where `holder` says, under the next epoch, and nothing is down or believed to be. */
  ghost predicate HandedOver(s: State, t: State, holder: Option<nat>) {
    && t == s.(holder := holder, epoch := s.epoch + 1, keys := {}, buttons := {}, os := t.os)
    && t.os.held == {} && t.os.script == if s.os.script == [] then [] else s.os.script[1..]
  }

  /** A release that did not go through: nobody has control, and the machine is poisoned with all its attachments. */
  ghost predicate GivenUp(s: State, t: State) {
    t.holder.None? && t.poisoned && t.attachments == s.attachments && t.gate == s.gate
  }

  lemma ReleaseIff(s: State)
    ensures var p := ReleaseControl(s);
            && p.result == (if CanRelease(s) then Ok else if s.epoch >= MAX_SAFE then Err(Limit) else Err(Backend))
            && (if CanRelease(s) then HandedOver(s, p.state, None) else GivenUp(s, p.state))
  {
  }

  /**
   Who gets control, for a caller that is authorized. Acquiring is refused exactly while
   somebody else is in control, and then changes nothing; taking over is not. A new holder
   starts a new epoch with nothing down, and only the holder itself can let go.
   */
  lemma SetControlIff(s: State, valid: Credentials, connection: nat, id: nat, now: nat,
                      action: ControlAction, before: set<nat>)
    requires Authorize(s, valid, connection, id, now, before).result.Ok?
    ensures var t := Authorize(s, valid, connection, id, now, before).state;
            var p := SetControl(s, valid, connection, id, now, action, before);
            var mine, others := t.holder == Some(id), t.holder.Some? && t.holder != Some(id);
            && (p.result == Err(Busy) <==> action.Acquire? && others)
            && (p.result == Err(Busy) ==> p.state == t)
            && (action.Release? && !mine ==> p == Done(t, Ok))
            && (!action.Release? && mine ==> p == Done(t, Ok))
            && (action.Release? && mine ==>
                  if CanRelease(t) then p.result == Ok && HandedOver(t, p.state, None)
                  else p.result.Err? && GivenUp(t, p.state))
            && (!action.Release? && !mine && !(action.Acquire? && others) ==>
                  if CanRelease(t) then p.result == Ok && HandedOver(t, p.state, Some(id))
                  else p.result.Err? && GivenUp(t, p.state))
  {
    hide Authorize, ReleaseControl;
    ReleaseIff(Authorize(s, valid, connection, id, now, before).state);
  }

  /** A caller that is not authorized changes nothing by asking, beyond what expires anyway. */
  lemma RefusedControl(s: State, valid: Credentials, connection: nat, id: nat, now: nat,
                       action: ControlAction, before: set<nat>)
    requires !Authorize(s, valid, connection, id, now, before).result.Ok?
    ensures SetControl(s, valid, connection, id, now, action, before).state == Expire(s, valid, now, before).state
    ensures SetControl(s, valid, connection, id, now, action, before).result.Err?
  {
    hide Expire, ReleaseControl;
  }

  /** An input stream that ends early releases control exactly if it is still the stream of the holder's epoch. */
  lemma StreamLostIff(s: State, id: nat, epoch: nat)
    ensures var p := StreamLost(s, id, epoch);
            if s.holder == Some(id) && s.epoch == epoch then
              if CanRelease(s) then p.result == Ok && HandedOver(s, p.state, None) else p.result.Err? && GivenUp(s, p.state)
            else p == Done(s, Ok)
  {
    hide ReleaseControl;
    ReleaseIff(s);
  }

  // ----- attachments -----

  /** The attachments that stay, with one guard dropped for each that goes, and nothing else of them changed. */
  ghost predicate Parted(s: State, t: State, gone: set<nat>) {
    && t.attachments == s.attachments - gone && t.gate.draining == s.gate.draining && t.gate.active + |gone| == s.gate.active
    && t.nextId == s.nextId && t.layoutEpoch == s.layoutEpoch && t.poisoned == s.poisoned
  }

  /** Removing a set of attachments that goes through: control is released exactly if the holder is among them. */
  lemma RemovalIs(s: State, gone: set<nat>, before: set<nat>, stray: set<Control>)
    requires Inv(s, stray) && gone <= s.attachments.Keys && RemoveAll(s, gone, before).result.Ok?
    ensures var t := RemoveAll(s, gone, before).state;
            && Parted(s, t, gone)
            && (if s.holder.Some? && s.holder.value in gone
                then HandedOver(s, t.(attachments := s.attachments, gate := s.gate), None)
                else t == s.(attachments := t.attachments, gate := t.gate))
  {
    hide ReleaseControl;
    ReleaseIff(s);
    SubsetSize(gone, s.attachments.Keys);
    assert s.attachments - {} == s.attachments;
  }

  /** A lost connection takes away its own attachments and no others. */
  lemma DisconnectIs(s: State, connection: nat, before: set<nat>, stray: set<Control>)
    requires Inv(s, stray) && Disconnect(s, connection, before).result.Ok?
    ensures var t := Disconnect(s, connection, before).state;
            forall id :: id in t.attachments <==> id in s.attachments && s.attachments[id].connection != connection
    ensures var t := Disconnect(s, connection, before).state;
            && (forall id :: id in t.attachments ==> t.attachments[id] == s.attachments[id])
            && (s.holder.Some? && s.attachments[s.holder.value].connection == connection ==> t.holder.None? && t.os.held == {})
            && (s.holder.Some? && s.attachments[s.holder.value].connection != connection ==>
                  t.holder == s.holder && t.epoch == s.epoch && t.os == s.os)
  {
    hide RemoveAll, Inv;
    HolderAttached(s, stray);
    RemovalIs(s, OnConnection(s, connection), before, stray);
  }

  lemma HolderAttached(s: State, stray: set<Control>)
    requires Inv(s, stray)
    ensures s.holder.Some? ==> s.holder.value in s.attachments
  {
  }

  /** An expiry takes away exactly those whose lease has run out or whose credential is no longer valid. */
  lemma ExpireIs(s: State, valid: Credentials, now: nat, before: set<nat>)
    requires Expire(s, valid, now, before).result.Ok?
    ensures var t := Expire(s, valid, now, before).state;
            && (forall id :: id in t.attachments <==>
                  id in s.attachments && now < s.attachments[id].deadline && valid(s.attachments[id].client, now))
            && (forall id :: id in t.attachments ==> t.attachments[id] == s.attachments[id])
  {
    hide Expire;
    ExpireLeavesTheLiving(s, valid, now, before);
  }

  /** A new client gets the next number, a lease of fifteen seconds, no viewports, and counts from nothing. */
  lemma AttachIff(s: State, valid: Credentials, connection: nat, client: Octets, mode: KeyboardMode,
                  now: nat, before: set<nat>)
    ensures var e := Expire(s, valid, now, before);
            var p := Attach(s, valid, connection, client, mode, now, before);
            && (p.result.Attached? <==>
                  && !e.result.Err? && valid(client, now) && !e.state.poisoned && |e.state.attachments| < 16
                  && !e.state.gate.draining && e.state.nextId < 9_007_199_254_740_991)
            && (p.result.Attached? ==>
                  var id := e.state.nextId + 1;
                  var deadline := if now + 15_000 > 0xffff_ffff_ffff_ffff then 0xffff_ffff_ffff_ffff else now + 15_000;
                  && p.result.id == id
                  && p.state == e.state.(nextId := id, gate := Gate(false, e.state.gate.active + 1),
                                         attachments := e.state.attachments[id := Attachment(connection, mode, client, deadline, 0, map[])]))
            && (!p.result.Attached? ==> p.result.Err? && p.state == e.state)
  {
    hide Expire;
    ExpireAnswers(s, valid, now, before);
  }

  lemma ExpireAnswers(s: State, valid: Credentials, now: nat, before: set<nat>)
    ensures !Expire(s, valid, now, before).result.Attached?
  {
    hide Dead;
  }

  /** Detaching takes away one's own attachment, and control with it. */
  lemma DetachIs(s: State, valid: Credentials, connection: nat, id: nat, now: nat, before: set<nat>)
    requires Authorize(s, valid, connection, id, now, before).result.Ok?
    ensures var t := Authorize(s, valid, connection, id, now, before).state;
            var p := Detach(s, valid, connection, id, now, before);
            && (p.result == Ok <==> !t.poisoned && (t.holder == Some(id) ==> CanRelease(t)))
            && (p.result == Ok ==> p.state.attachments == t.attachments - {id} && p.state.holder != Some(id))
            && (p.result == Ok && t.holder == Some(id) ==> p.state.epoch == t.epoch + 1 && p.state.os.held == {})
            && (p.result == Ok && t.holder != Some(id) ==> p.state == t.(attachments := p.state.attachments, gate := p.state.gate))
            && (p.result != Ok ==> p.state.attachments == t.attachments)
  {
    hide Authorize, ReleaseControl;
    var t := Authorize(s, valid, connection, id, now, before).state;
    ReleaseIff(t);
    assert t.attachments - ({id} * t.attachments.Keys) == t.attachments - {id};
  }

  /** Renewing moves the end of the caller's own lease to fifteen seconds from now, and nothing else. */
  lemma RenewIs(s: State, valid: Credentials, connection: nat, id: nat, now: nat, before: set<nat>)
    requires Authorize(s, valid, connection, id, now, before).result.Ok?
    ensures var t := Authorize(s, valid, connection, id, now, before).state;
            var p := Renew(s, valid, connection, id, now, before);
            var deadline := if now + 15_000 > U64_MAX then U64_MAX else now + 15_000;
            && p.result == Ok && id in t.attachments
            && p.state == t.(attachments := t.attachments[id := t.attachments[id].(deadline := deadline)])
  {
    hide Authorize;
    AuthorizedIsAttached(s, valid, connection, id, now, before);
  }

  lemma AuthorizedIsAttached(s: State, valid: Credentials, connection: nat, id: nat, now: nat, before: set<nat>)
    requires Authorize(s, valid, connection, id, now, before).result.Ok?
    ensures var t := Authorize(s, valid, connection, id, now, before).state;
            id in t.attachments && t.attachments[id].connection == connection && !t.poisoned
  {
    hide Expire;
  }

  // ----- why a caller is refused -----

  /** Expiry comes first; then the attachment must exist, be the caller's, and the machine be sound. */
  lemma AuthorizeRefusals(s: State, valid: Credentials, connection: nat, id: nat, now: nat, before: set<nat>)
    ensures var e := Expire(s, valid, now, before);
            Authorize(s, valid, connection, id, now, before) ==
              if e.result.Err? then e
              else Done(e.state, if id !in e.state.attachments then Err(NotFound)
                                 else if e.state.attachments[id].connection != connection then Err(Unauthorized)
                                 else if e.state.poisoned then Err(Backend) else Ok)
  {
    hide Expire;
  }

  /** Why nobody is attached, in the order it is found out. */
  lemma AttachRefusals(s: State, valid: Credentials, connection: nat, client: Octets, mode: KeyboardMode,
                       now: nat, before: set<nat>)
    requires Attach(s, valid, connection, client, mode, now, before).result.Err?
    ensures var e := Expire(s, valid, now, before);
            Attach(s, valid, connection, client, mode, now, before).result ==
              if e.result.Err? then e.result
              else if !valid(client, now) then Err(Unauthorized)
              else if e.state.poisoned then Err(Backend)
              else if |e.state.attachments| >= 16 then Err(Limit)
              else if e.state.gate.draining then Err(Busy)
              else Err(Limit)
  {
    hide Expire;
  }

  /** Why feedback is not taken. */
  lemma FeedbackRefusals(s: State, valid: Credentials, connection: nat, now: nat, frame: Frame, configured: bool, before: set<nat>)
    requires frame.event.Feedback? && Authorize(s, valid, connection, frame.attach, now, before).result.Ok?
    requires AcceptFeedback(s, valid, connection, now, frame, configured, before).result != Ok
    ensures var e := frame.event;
            AcceptFeedback(s, valid, connection, now, frame, configured, before).result ==
              if configured && (e.group == 0 || e.decodeMicros > 60_000_000 || e.renderMicros > 60_000_000 || e.queueDepth > 256)
              then Err(Limit) else Err(Stale)
  {
    hide Authorize;
    AuthorizedIsAttached(s, valid, connection, frame.attach, now, before);
  }

  // ----- layouts -----

  /** A new layout has the next number, and no attachment keeps a viewport of the old one. */
  lemma LayoutChangedIs(s: State)
    ensures var p := LayoutChanged(s);
            && (p.result == Ok <==> s.layoutEpoch < MAX_SAFE)
            && (p.result != Ok ==> p == Done(s, Err(Limit)))
            && (p.result == Ok ==>
                  && p.state == s.(layoutEpoch := s.layoutEpoch + 1, attachments := p.state.attachments)
                  && p.state.attachments.Keys == s.attachments.Keys
                  && forall id :: id in s.attachments ==>
                       p.state.attachments[id].viewports == map[]
                       && p.state.attachments[id] == s.attachments[id].(viewports := map[]))
  {
  }

  /** Known displays change nothing, the first ones are only noted; others release what is held and change the layout. */
  lemma RefreshLayoutIs(s: State, displays: Displays)
    ensures var p := RefreshLayout(s, displays);
            && (s.displays == Some(displays) ==> p == Done(s, Ok))
            && (s.displays.None? ==> p == Done(s.(displays := Some(displays)), Ok))
            && (s.displays.Some? && s.displays != Some(displays) ==>
                  && (p.result == Ok ==>
                        && p.state.displays == Some(displays) && p.state.layoutEpoch == s.layoutEpoch + 1
                        && p.state.holder == s.holder && p.state.epoch == s.epoch
                        && p.state.attachments.Keys == s.attachments.Keys
                        && (forall id :: id in s.attachments ==> p.state.attachments[id].viewports == map[])
                        && (s.holder.Some? ==> p.state.keys == {} && p.state.buttons == {} && p.state.os.held == {}))
                  && (p.result != Ok ==>
                        && p.state.layoutEpoch == s.layoutEpoch && p.state.displays == s.displays
                        && (p.state.poisoned || s.layoutEpoch >= MAX_SAFE)))
  {
    hide LayoutChanged;
    LayoutChangedIs(s);
    LayoutChangedIs(ReleaseHeld(s).state);
  }

  // ----- input -----

  /** What the machine believes to be down. */
  ghost function Believed(s: State): set<Control> {
    (set k | k in s.keys :: Key(k)) + (set b | b in s.buttons :: Button(b))
  }

  /** The bookkeeping before a send is what the send does to the hardware. */
  lemma NotedIsEffect(s: State, event: Event)
    ensures Believed(Noted(s, event)) == Effect(event, Believed(s))
  {
  }

  /** After a delivery that went through, what is believed is what the event makes of what was believed. */
  lemma DeliveredIsBelieved(s: State, frame: Frame)
    ensures var p := Deliver(s, frame);
            && (p.result == Ok <==> s.os.script == [] || s.os.script[0].Sent?)
            && (p.result == Ok ==>
                  && Believed(p.state) == Effect(frame.event, Believed(s)) && p.state.os.held == Effect(frame.event, s.os.held)
                  && p.state == s.(keys := p.state.keys, buttons := p.state.buttons, os := p.state.os))
            && (p.result != Ok ==> p.result == Err(Backend) && p.state.holder.None? && p.state.attachments == s.attachments
                                   && (p.state.poisoned || p.state.os.held == {}))
  {
    hide Noted, Effect, ReleaseControl;
    NotedIsEffect(s, frame.event);
    NotedKeepsTheRest(s, frame.event);
    ReleaseIff(Noted(s, frame.event).(os := AfterSend(s.os, frame.event)));
  }

  /** Which kinds of events a client may send, and when. */
  ghost predicate MaySend(s: State, a: Attachment, event: Event) {
    match event
    case PhysicalKey(usage, down, repeat) =>
      && 4 <= usage <= 231
      && (a.mode.Text? ==> 224 <= usage <= 231)
      && (repeat ==> down && Key(usage) in Believed(s))
    case PointerButton(_, _, _, button, _) => button in {1, 2, 3, 4, 5}
    case TextCommit(text) =>
      a.mode.Text? && |text| <= 4096 && (forall i :: 0 <= i < |text| ==> text[i] != 0) && forall k :: Key(k) !in Believed(s)
    case Wheel(_, _, _, dx, dy) =>
      dx.Finite? && dy.Finite? && -100_000.0 <= dx.value <= 100_000.0 && -100_000.0 <= dy.value <= 100_000.0
    case AbsolutePointer(_, _, _) => true
    case ReleaseAll => true
    case _ => false
  }

  /** Pointer events aim into a viewport of the current layout; letting a button go aims nowhere. */
  ghost predicate AimsWell(s: State, a: Attachment, frame: Frame) {
    frame.event.AbsolutePointer? || frame.event.Wheel? || (frame.event.PointerButton? && frame.event.down) ==>
      && frame.layoutEpoch == s.layoutEpoch && frame.event.viewport in a.viewports
      && frame.event.x.Finite? && frame.event.y.Finite?
      && 0.0 <= frame.event.x.value < a.viewports[frame.event.viewport].width as real
      && 0.0 <= frame.event.y.value < a.viewports[frame.event.viewport].height as real
  }

  lemma EventErrorIff(s: State, a: Attachment, event: Event)
    ensures EventError(s, a, event).None? <==> MaySend(s, a, event)
    ensures EventError(s, a, event).Some? ==>
              EventError(s, a, event).value ==
                if event.Composition? || event.RelativePointer? || event.Feedback? then Unsupported else Invalid
  {
    assert forall k :: Key(k) in Believed(s) <==> k in s.keys;
    if event.TextCommit? {
      assert 0 in event.text <==> exists i :: 0 <= i < |event.text| && event.text[i] == 0;
      assert s.keys == {} <==> forall k :: Key(k) !in Believed(s) by {
        if s.keys != {} {
          var k :| k in s.keys;
          assert Key(k) in Believed(s);
        }
      }
    }
  }

  lemma PointErrorIff(s: State, a: Attachment, frame: Frame)
    ensures PointError(s, a, frame).None? <==> AimsWell(s, a, frame)
    ensures PointError(s, a, frame).Some? ==>
              PointError(s, a, frame).value == if frame.layoutEpoch != s.layoutEpoch then Stale else Invalid
  {
  }

  /** The events that reach the hardware, in terms of the client, the epoch, the number and the event alone. */
  lemma InputReachesIff(s: State, valid: Credentials, connection: nat, now: nat, frame: Frame, before: set<nat>, stray: set<Control>)
    requires Inv(s, stray)
    ensures Input(s, valid, connection, now, frame, before).delivered.Some? <==>
            && Entitled(s, valid, connection, frame.attach, now) && !s.poisoned
            && s.holder == Some(frame.attach) && s.epoch == frame.epoch
            && frame.sequence == s.attachments[frame.attach].sequence + 1 && frame.sequence <= MAX_SAFE
            && AimsWell(s, s.attachments[frame.attach], frame) && MaySend(s, s.attachments[frame.attach], frame.event)
  {
    hide Input, Inv, AimsWell, MaySend, PointError, EventError;
    DeliveredIff(s, valid, connection, now, frame, before, stray);
    if frame.attach in s.attachments {
      PointErrorIff(s, s.attachments[frame.attach], frame);
      EventErrorIff(s, s.attachments[frame.attach], frame.event);
    }
  }

  /** A rejected event of the holder spends its number all the same; a stale one spends nothing. */
  lemma RejectedSpends(s: State, valid: Credentials, connection: nat, now: nat, frame: Frame, before: set<nat>)
    requires Authorize(s, valid, connection, frame.attach, now, before).result.Ok?
    requires Input(s, valid, connection, now, frame, before).delivered.None?
    ensures var t := Authorize(s, valid, connection, frame.attach, now, before).state;
            var p := Input(s, valid, connection, now, frame, before);
            && frame.attach in t.attachments && p.result.Err?
            && var a := t.attachments[frame.attach];
            if t.holder == Some(frame.attach) && frame.epoch == t.epoch && frame.sequence == a.sequence + 1 && frame.sequence <= MAX_SAFE
            then p.state == t.(attachments := t.attachments[frame.attach := a.(sequence := frame.sequence)])
            else p.state == t && p.result == Err(Stale)
  {
    hide Authorize, PointError, EventError, Deliver;
    AuthorizedIsAttached(s, valid, connection, frame.attach, now, before);
    var t := Authorize(s, valid, connection, frame.attach, now, before).state;
    var a := t.attachments[frame.attach];
    DeliverDelivers(t.(attachments := t.attachments[frame.attach := a.(sequence := frame.sequence)]), frame);
  }

  /** Feedback is taken exactly if it is for a track in force, within bounds and next in number; it spends that number. */
  lemma FeedbackIff(s: State, valid: Credentials, connection: nat, now: nat, frame: Frame, configured: bool, before: set<nat>)
    requires frame.event.Feedback?
    requires Authorize(s, valid, connection, frame.attach, now, before).result.Ok?
    ensures var t := Authorize(s, valid, connection, frame.attach, now, before).state;
            var p := AcceptFeedback(s, valid, connection, now, frame, configured, before);
            && frame.attach in t.attachments
            && var a, e := t.attachments[frame.attach], frame.event;
            && (p.result == Ok <==>
                  && configured && 0 < e.group && e.decodeMicros <= 60_000_000 && e.renderMicros <= 60_000_000 && e.queueDepth <= 256
                  && frame.sequence == a.sequence + 1 && frame.sequence <= MAX_SAFE)
            && p.state == if p.result == Ok
                          then t.(attachments := t.attachments[frame.attach := a.(sequence := frame.sequence)]) else t
  {
    hide Authorize;
    AuthorizedIsAttached(s, valid, connection, frame.attach, now, before);
  }

  // ----- reconciliation -----

  /** A confirmed recovery of another generation starts over: nobody attached, no control, nothing believed down. */
  lemma ReconcileIs(s: State, recovery: Recovery, stray: set<Control>)
    requires Inv(s, stray)
    ensures var p := Reconcile(s, recovery);
            var anew := !s.gate.draining && recovery.Recovered? && recovery.generation != s.generation;
            && (s.gate.draining ==> p == Done(s, Err(Busy)))
            && (!s.gate.draining && recovery.RecoveryFailed? ==> p == Done(s, Err(recovery.error)))
            && (!s.gate.draining && recovery.Recovered? && recovery.generation == s.generation ==> p == Done(s, Ok))
            && (anew ==> (p.result == Ok <==> s.epoch < MAX_SAFE && s.layoutEpoch < MAX_SAFE))
            && (anew && p.result == Ok ==>
                  p.state == State(Gate(false, s.gate.active - |s.attachments|), Os(recovery.left, s.os.script), map[], None,
                                   s.epoch + 1, s.nextId, s.layoutEpoch + 1, {}, {}, false, recovery.generation, None))
            && (anew && p.result != Ok ==> p.result == Err(Limit) && p.state.attachments == s.attachments && p.state.generation == s.generation)
  {
    assert s.attachments - s.attachments.Keys == map[] && |s.attachments.Keys| == |s.attachments|;
  }

  // ----- the updater -----

  /** A drain is granted exactly if none is and no work is live; while it is, no work comes in; and its end lets work in again. */
  lemma DrainIff(s: State)
    ensures var p := Apply(s, DrainBegins);
            && (p.result == Ok <==> !s.gate.draining && s.gate.active == 0)
            && p.state == (if p.result == Ok then s.(gate := Gate(true, 0)) else s)
    ensures var p := Apply(s, OtherWorkEnters);
            && (p.result == Ok <==> !s.gate.draining)
            && p.state == (if p.result == Ok then s.(gate := Gate(false, s.gate.active + 1)) else s)
    ensures Apply(s, DrainEnds).state == s.(gate := Gate(false, s.gate.active))
  {
  }

  // ----- how many -----

  lemma {:induction false} AtMostSixteen(script: seq<Outcome>, ops: seq<Op>, n: nat)
    requires n <= |ops|
    ensures |After(script, ops, n).attachments| <= 16
  {
    hide Apply;
    if n > 0 {
      AtMostSixteen(script, ops, n - 1);
      RunKeeps(script, ops, n - 1);
      StepCounts(After(script, ops, n - 1), ops[n - 1], Strays(script, ops, n - 1));
    }
  }

  /** No operation lets the attachments grow beyond the limit. */
  lemma StepCounts(s: State, op: Op, stray: set<Control>)
    requires Inv(s, stray) && |s.attachments| <= 16
    ensures |Apply(s, op).state.attachments| <= 16
  {
    hide Inv, Evolves, Apply;
    if op.DoAttach? {
      AttachCounts(s, op, stray);
    } else {
      NobodyNew(s, op, stray);
      SubsetSize(Apply(s, op).state.attachments.Keys, s.attachments.Keys);
      assert |Apply(s, op).state.attachments| == |Apply(s, op).state.attachments.Keys| && |s.attachments| == |s.attachments.Keys|;
    }
  }

  lemma AttachCounts(s: State, op: Op, stray: set<Control>)
    requires Inv(s, stray) && |s.attachments| <= 16 && op.DoAttach?
    ensures |Apply(s, op).state.attachments| <= 16
  {
    hide Inv, Evolves, Expire, Attach;
    AttachIff(s, op.valid, op.connection, op.client, op.mode, op.now, op.before);
    ExpireKeeps(s, op.valid, op.now, op.before, stray);
    var e := Expire(s, op.valid, op.now, op.before).state;
    SubsetSize(e.attachments.Keys, s.attachments.Keys);
    assert |e.attachments| == |e.attachments.Keys| && |s.attachments| == |s.attachments.Keys|;
    var t := Apply(s, op).state;
    if Apply(s, op).result.Attached? {
      assert t.attachments.Keys == e.attachments.Keys + {e.nextId + 1};
      assert |t.attachments| == |t.attachments.Keys|;
    }
  }

  /** Only attaching raises the number of the latest attachment; without it nobody new is there. */
  lemma NobodyNew(s: State, op: Op, stray: set<Control>)
    requires Inv(s, stray) && !op.DoAttach?
    ensures Apply(s, op).state.attachments.Keys <= s.attachments.Keys
  {
    StepKeeps(s, op, stray);
    var t := Apply(s, op).state;
    SameNext(s, op, stray);
    hide Apply;
    assert forall id :: id in t.attachments ==> id <= s.nextId;
  }

  lemma SameNext(s: State, op: Op, stray: set<Control>)
    requires Inv(s, stray) && !op.DoAttach?
    ensures Apply(s, op).state.nextId == s.nextId
  {
    hide Inv, Evolves, Authorize, RemoveAll, Remove, ReleaseControl, ReleaseHeld, Deliver, PointError, EventError, Collect, LayoutChanged;
    if op.DoInput? || op.DoFeedback? {
      AuthorizeKeeps(s, op.valid, op.connection, op.frame.attach, op.now, op.before, stray);
      if op.DoInput? {
        InputKeepsNext(s, op.valid, op.connection, op.now, op.frame, op.before, stray);
      }
    } else if op.DoDetach? || op.DoRenew? || op.DoSetControl? || op.DoConfigure? {
      AuthorizeKeeps(s, op.valid, op.connection, op.id, op.now, op.before, stray);
      var t := Authorize(s, op.valid, op.connection, op.id, op.now, op.before).state;
      ReleasesKeepNext(t);
      RemoveKeepsNext(t, op.id);
    } else {
      ReleasesKeepNext(s);
      LayoutChangedIs(s);
      LayoutChangedIs(ReleaseHeld(s).state);
      if op.DoRemove? {
        RemoveKeepsNext(s, op.id);
      } else if op.DoExpire? {
        ExpireKeeps(s, op.valid, op.now, op.before, stray);
      } else if op.DoDisconnect? {
        RemoveAllKeeps(s, OnConnection(s, op.connection), op.before, stray);
      }
    }
  }

  lemma ReleasesKeepNext(s: State)
    ensures ReleaseControl(s).state.nextId == s.nextId && ReleaseHeld(s).state.nextId == s.nextId
  {
  }

  lemma RemoveKeepsNext(s: State, id: nat)
    ensures Remove(s, id).state.nextId == s.nextId
  {
    hide ReleaseControl;
    ReleasesKeepNext(s);
  }

  lemma InputKeepsNext(s: State, valid: Credentials, connection: nat, now: nat, frame: Frame, before: set<nat>, stray: set<Control>)
    requires Inv(s, stray)
    ensures Input(s, valid, connection, now, frame, before).state.nextId == s.nextId
  {
    hide Inv, Evolves, Authorize, ReleaseControl, PointError, EventError, Noted;
    AuthorizeKeeps(s, valid, connection, frame.attach, now, before, stray);
    var t := Authorize(s, valid, connection, frame.attach, now, before).state;
    if frame.attach in t.attachments {
      var u := t.(attachments := t.attachments[frame.attach := t.attachments[frame.attach].(sequence := frame.sequence)]);
      NotedKeepsTheRest(u, frame.event);
      ReleasesKeepNext(Noted(u, frame.event).(os := AfterSend(u.os, frame.event)));
    }
  }
}
