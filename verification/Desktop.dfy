/** The desktop state machine in the program's own form: objects changed in place. */
module Desktop {
  import opened Basics
  import opened Maintenance
  import opened DesktopModel

  /** The platform's input sink. `held` is the ghost truth about the hardware. */
  class InputSink {
    ghost var held: set<Control>
    var script: seq<Outcome>

    ghost function View(): Os
      reads this
    {
      Os(held, script)
    }

    constructor (script: seq<Outcome>)
      ensures View() == Os({}, script)
    {
      held, this.script := {}, script;
    }

    method Send(event: Event) returns (ok: bool)
      modifies this
      ensures ok == SendSucceeds(old(View()))
      ensures View() == AfterSend(old(View()), event)
    {
      ok := script == [] || script[0].Sent?;
      held := if ok then Effect(event, held) else script[0].held;
      if script != [] {
        script := script[1..];
      }
    }

    /** A helper that took over reports its recovery done; what it left down is down. */
    ghost method TakenOver(left: set<Control>)
      modifies this`held
      ensures held == left
    {
      held := left;
    }
  }

  class Desktop {
    const gate: WorkGate
    const input: InputSink
    var attachments: map<nat, Attachment>
    var holder: Option<nat>
    var epoch: nat
    var nextId: nat
    var layoutEpoch: nat
    var keys: set<nat>
    var buttons: set<nat>
    var poisoned: bool
    var generation: nat
    var displays: Option<Displays>

    ghost function View(): State
      reads this, gate, input
    {
      State(gate.View(), input.View(), attachments, holder, epoch, nextId, layoutEpoch,
            keys, buttons, poisoned, generation, displays)
    }

    /** Each attachment owns one work guard, so the gate counts at least that many. */
    ghost predicate Guarded()
      reads this, gate
    {
      |attachments| <= gate.active && (holder.Some? ==> holder.value in attachments)
    }

    constructor (script: seq<Outcome>)
      ensures Guarded() && View() == Init(script)
      ensures fresh(gate) && fresh(input)
    {
      gate := new WorkGate();
      input := new InputSink(script);
      attachments, holder, epoch, nextId, layoutEpoch := map[], None, 1, 0, 1;
      keys, buttons, poisoned, generation, displays := {}, {}, false, 0, None;
    }

    method ReleaseHeld() returns (r: Result)
      requires Guarded()
      modifies this, input
      ensures Guarded() && attachments == old(attachments)
      ensures Done(View(), r) == DesktopModel.ReleaseHeld(old(View()))
    {
      var ok := input.Send(ReleaseAll);
      if !ok {
        poisoned := true;
        return Err(Backend);
      }
      keys, buttons := {}, {};
      r := Ok;
    }

    method ReleaseControl() returns (r: Result)
      requires Guarded()
      modifies this, input
      ensures Guarded() && attachments == old(attachments)
      ensures Done(View(), r) == DesktopModel.ReleaseControl(old(View()))
    {
      holder := None;
      if epoch + 1 > MAX_SAFE {
        poisoned := true;
        return Err(Limit);
      }
      epoch := epoch + 1;
      r := ReleaseHeld();
    }

    /** Takes any number; one that is not attached has no guard to drop. */
    method Remove(id: nat) returns (r: Result)
      requires Guarded()
      modifies this, input, gate
      ensures Guarded()
      ensures Done(View(), r) == DesktopModel.Remove(old(View()), id)
    {
      if poisoned {
        return Err(Backend);
      }
      if holder == Some(id) {
        r := ReleaseControl();
        if r.Err? {
          return;
        }
      }
      Drop(id);
      r := Ok;
    }

    /** Forget an attachment, and with it the work guard it owns. */
    method Drop(id: nat)
      requires Guarded() && holder != Some(id)
      modifies this`attachments, gate
      ensures Guarded()
      ensures View() == Forget(old(View()), {id} * old(attachments).Keys)
    {
      ForgetsAtMostOne(attachments, id);
      if id in attachments {
        attachments := attachments - {id};
        gate.Leave();
      }
    }

    /** The loop shared by expiry and disconnection; `before` records what went ahead of the holder. */
    method RemoveAll(doomed: set<nat>) returns (r: Result, ghost before: set<nat>)
      requires Guarded() && doomed <= attachments.Keys
      modifies this, input, gate
      ensures Guarded()
      ensures Done(View(), r) == DesktopModel.RemoveAll(old(View()), doomed, before)
    {
      hide DesktopModel.Remove, DesktopModel.RemoveAll, Removed;
      r, before := Ok, {};
      var left := doomed;
      ghost var s := View();
      NothingRemoved(s, doomed);
      if left != {} && poisoned {
        return Err(Backend), {};
      }
      while left != {}
        invariant before == doomed - left && left <= doomed && left <= attachments.Keys
        invariant Guarded() && r == Ok
        invariant doomed != {} ==> Underway(s, before) && View() == Removed(s, before)
        invariant doomed == {} ==> View() == s
        decreases left
      {
        var id :| id in left;
        RemoveAdvances(s, doomed, before, id);
        r := Remove(id);
        if r.Err? {
          return;
        }
        left := left - {id};
        before := before + {id};
      }
      assert before == doomed;
      AllRemoved(s, doomed, before);
    }

    method Expire(valid: Credentials, now: nat) returns (r: Result, ghost before: set<nat>)
      requires Guarded()
      modifies this, input, gate
      ensures Guarded()
      ensures Done(View(), r) == DesktopModel.Expire(old(View()), valid, now, before)
    {
      hide DesktopModel.RemoveAll;
      var dead := set id | id in attachments
                         && (now >= attachments[id].deadline || !valid(attachments[id].client, now));
      assert dead == Dead(View(), valid, now);
      r, before := RemoveAll(dead);
    }

    method Disconnect(connection: nat) returns (r: Result, ghost before: set<nat>)
      requires Guarded()
      modifies this, input, gate
      ensures Guarded()
      ensures Done(View(), r) == DesktopModel.Disconnect(old(View()), connection, before)
    {
      hide DesktopModel.RemoveAll;
      var ids := set id | id in attachments && attachments[id].connection == connection;
      assert ids == OnConnection(View(), connection);
      r, before := RemoveAll(ids);
    }

    method Authorize(valid: Credentials, connection: nat, id: nat, now: nat)
      returns (r: Result, ghost before: set<nat>)
      requires Guarded()
      modifies this, input, gate
      ensures Guarded() && (r.Err? || (r.Ok? && id in attachments))
      ensures Done(View(), r) == DesktopModel.Authorize(old(View()), valid, connection, id, now, before)
    {
      hide DesktopModel.Expire;
      r, before := Expire(valid, now);
      if r.Err? {
        return;
      }
      if id !in attachments {
        r := Err(NotFound);
      } else if attachments[id].connection != connection {
        r := Err(Unauthorized);
      } else if poisoned {
        r := Err(Backend);
      } else {
        r := Ok;
      }
    }

    method Attach(valid: Credentials, connection: nat, client: Octets, mode: KeyboardMode, now: nat)
      returns (r: Result, ghost before: set<nat>)
      requires Guarded()
      modifies this, input, gate
      ensures Guarded()
      ensures Done(View(), r) == DesktopModel.Attach(old(View()), valid, connection, client, mode, now, before)
    {
      hide DesktopModel.Expire;
      r, before := Expire(valid, now);
      if r.Err? {
        return;
      }
      if !valid(client, now) {
        return Err(Unauthorized), before;
      }
      if poisoned {
        return Err(Backend), before;
      }
      if |attachments| >= MAX_ATTACHMENTS {
        return Err(Limit), before;
      }
      r := Admit(Attachment(connection, mode, client, SaturatingAdd(now, LEASE_MS), 0, map[]));
    }

    /** Take a work guard and a fresh number for a new attachment. */
    method Admit(a: Attachment) returns (r: Result)
      requires Guarded()
      modifies this, gate
      ensures Guarded()
      ensures var s := old(View());
              Done(View(), r) ==
                if !s.gate.Admits() then Done(s, Err(Busy))
                else if s.nextId + 1 > MAX_SAFE then Done(s, Err(Limit))
                else Done(s.(gate := s.gate.Entered(), nextId := s.nextId + 1,
                             attachments := s.attachments[s.nextId + 1 := a]), Attached(s.nextId + 1))
    {
      var admitted := gate.Enter();
      if !admitted {
        return Err(Busy);
      }
      if nextId + 1 > MAX_SAFE {
        gate.Leave();
        return Err(Limit);
      }
      Register(a);
      r := Attached(nextId);
    }

    /** Number and keep an attachment for which a guard has been taken. */
    method Register(a: Attachment)
      requires |attachments| < gate.active && (holder.Some? ==> holder.value in attachments)
      modifies this`nextId, this`attachments
      ensures Guarded()
      ensures nextId == old(nextId) + 1 && attachments == old(attachments)[nextId := a]
    {
      nextId := nextId + 1;
      GrowsByOne(attachments, nextId, a);
      attachments := attachments[nextId := a];
    }

    method Detach(valid: Credentials, connection: nat, id: nat, now: nat)
      returns (r: Result, ghost before: set<nat>)
      requires Guarded()
      modifies this, input, gate
      ensures Guarded()
      ensures Done(View(), r) == DesktopModel.Detach(old(View()), valid, connection, id, now, before)
    {
      hide DesktopModel.Authorize, DesktopModel.Remove;
      r, before := Authorize(valid, connection, id, now);
      if !r.Err? {
        r := Remove(id);
      }
    }

    method Renew(valid: Credentials, connection: nat, id: nat, now: nat)
      returns (r: Result, ghost before: set<nat>)
      requires Guarded()
      modifies this, input, gate
      ensures Guarded()
      ensures Done(View(), r) == DesktopModel.Renew(old(View()), valid, connection, id, now, before)
    {
      hide DesktopModel.Authorize;
      r, before := Authorize(valid, connection, id, now);
      if !r.Err? {
        Store(id, attachments[id].(deadline := SaturatingAdd(now, LEASE_MS)));
      }
    }

    /** Replace the record of a live attachment. */
    method Store(id: nat, a: Attachment)
      requires Guarded() && id in attachments
      modifies this`attachments
      ensures Guarded() && attachments == old(attachments)[id := a]
    {
      assert attachments[id := a].Keys == attachments.Keys;
      attachments := attachments[id := a];
    }

    method SetControl(valid: Credentials, connection: nat, id: nat, now: nat, action: ControlAction)
      returns (r: Result, ghost before: set<nat>)
      requires Guarded()
      modifies this, input, gate
      ensures Guarded()
      ensures Done(View(), r) == DesktopModel.SetControl(old(View()), valid, connection, id, now, action, before)
    {
      hide DesktopModel.Authorize, DesktopModel.ReleaseControl;
      r, before := Authorize(valid, connection, id, now);
      if r.Err? {
        return;
      }
      r := Ok;
      if action.Release? {
        if holder == Some(id) {
          r := ReleaseControl();
        }
      } else if holder != Some(id) {
        if holder.Some? && action.Acquire? {
          return Err(Busy), before;
        }
        r := ReleaseControl();
        if r.Err? {
          return;
        }
        holder := Some(id);
        r := Ok;
      }
    }

    method Configure(valid: Credentials, connection: nat, id: nat, now: nat, layout: nat,
                     requested: seq<Viewport>, budget: nat)
      returns (r: Result, ghost before: set<nat>)
      requires Guarded()
      modifies this, input, gate
      ensures Guarded()
      ensures Done(View(), r) == DesktopModel.Configure(old(View()), valid, connection, id, now, layout, requested, budget, before)
    {
      hide DesktopModel.Authorize;
      r, before := Authorize(valid, connection, id, now);
      if r.Err? {
        return;
      }
      if layout != layoutEpoch {
        return Err(Stale), before;
      }
      if |requested| > MAX_VIEWPORTS || budget == 0 || budget > MAX_BUDGET {
        return Err(Limit), before;
      }
      var next: map<Octets, Viewport>, total: nat, n: nat := map[], 0, 0;
      while n < |requested|
        invariant n <= |requested|
        invariant Collect(requested, n) == Collected(next, total)
      {
        var v := requested[n];
        if !ViewportInBounds(v) {
          RejectionPersists(requested, n + 1);
          return Err(Invalid), before;
        }
        if total + v.bitrate > U64_MAX {
          RejectionPersists(requested, n + 1);
          return Err(Limit), before;
        }
        total := total + v.bitrate;
        if v.id in next {
          RejectionPersists(requested, n + 1);
          return Err(Invalid), before;
        }
        next := next[v.id := v];
        n := n + 1;
      }
      if total > budget {
        return Err(Limit), before;
      }
      Store(id, attachments[id].(viewports := next));
      r := Ok;
    }

    method LayoutChanged() returns (r: Result)
      requires Guarded()
      modifies this
      ensures Guarded()
      ensures Done(View(), r) == DesktopModel.LayoutChanged(old(View()))
    {
      hide WithoutViewports;
      if layoutEpoch + 1 > MAX_SAFE {
        return Err(Limit);
      }
      layoutEpoch := layoutEpoch + 1;
      SameNumber(attachments);
      attachments := WithoutViewports(attachments);
      r := Ok;
    }

    /** The lock-protected part of `refresh_layout`. */
    method RefreshLayout(reported: Displays) returns (r: Result)
      requires Guarded()
      modifies this, input
      ensures Guarded()
      ensures Done(View(), r) == DesktopModel.RefreshLayout(old(View()), reported)
    {
      hide DesktopModel.ReleaseHeld, DesktopModel.LayoutChanged;
      if displays == Some(reported) {
        return Ok;
      }
      if displays.Some? {
        if holder.Some? {
          r := ReleaseHeld();
          if r.Err? {
            return;
          }
        }
        r := LayoutChanged();
        if r.Err? {
          return;
        }
      }
      displays := Some(reported);
      r := Ok;
    }

    /** The feedback branch of `accept_input`. */
    method AcceptFeedback(valid: Credentials, connection: nat, now: nat, frame: Frame, configured: bool)
      returns (r: Result, ghost before: set<nat>)
      requires Guarded()
      modifies this, input, gate
      ensures Guarded()
      ensures Done(View(), r) == DesktopModel.AcceptFeedback(old(View()), valid, connection, now, frame, configured, before)
    {
      hide DesktopModel.Authorize;
      r, before := Authorize(valid, connection, frame.attach, now);
      if r.Err? {
        return;
      }
      if !configured {
        return Err(Stale), before;
      }
      if !FeedbackBounded(frame.event) {
        return Err(Limit), before;
      }
      var a := attachments[frame.attach];
      if frame.sequence != a.sequence + 1 || frame.sequence > MAX_SAFE {
        return Err(Stale), before;
      }
      Store(frame.attach, a.(sequence := frame.sequence));
      r := Ok;
    }

    method Input(valid: Credentials, connection: nat, now: nat, frame: Frame)
      returns (r: Result, ghost delivered: Option<Delivery>, ghost before: set<nat>)
      requires Guarded()
      modifies this, input, gate
      ensures Guarded()
      ensures Step(View(), r, delivered) == DesktopModel.Input(old(View()), valid, connection, now, frame, before)
    {
      hide DesktopModel.Authorize, DesktopModel.ReleaseControl, DesktopModel.Deliver;
      delivered := None;
      r, before := Authorize(valid, connection, frame.attach, now);
      if r.Err? {
        return;
      }
      if holder != Some(frame.attach) || frame.epoch != epoch {
        return Err(Stale), None, before;
      }
      var a := attachments[frame.attach];
      if frame.sequence != a.sequence + 1 || frame.sequence > MAX_SAFE {
        return Err(Stale), None, before;
      }
      Store(frame.attach, a.(sequence := frame.sequence));
      var bad := BadPoint(a, frame);
      if bad.Some? {
        return Err(bad.value), None, before;
      }
      bad := BadEvent(a, frame.event);
      if bad.Some? {
        return Err(bad.value), None, before;
      }
      r, delivered := Deliver(frame);
    }

    /** Geometry: a pointer event must land inside a viewport of the current layout. */
    method BadPoint(a: Attachment, frame: Frame) returns (bad: Option<Error>)
      ensures bad == PointError(View(), a, frame)
    {
      var point := Point(frame.event);
      if point.None? {
        return None;
      }
      if frame.layoutEpoch != layoutEpoch {
        return Some(Stale);
      }
      var (v, x, y) := point.value;
      if v !in a.viewports || !Inside(x, a.viewports[v].width) || !Inside(y, a.viewports[v].height) {
        return Some(Invalid);
      }
      bad := None;
    }

    /** The per-kind admission rules. */
    method BadEvent(a: Attachment, event: Event) returns (bad: Option<Error>)
      ensures bad == EventError(View(), a, event)
    {
      bad := None;
      match event {
        case PhysicalKey(usage, down, repeat) =>
          if (a.mode.Text? && !(224 <= usage <= 231)) || !(4 <= usage <= 231)
             || (repeat && (!down || usage !in keys)) {
            bad := Some(Invalid);
          }
        case PointerButton(_, _, _, button, _) =>
          if !(1 <= button <= 5) {
            bad := Some(Invalid);
          }
        case TextCommit(text) =>
          if !a.mode.Text? || |text| > 4096 || 0 in text || keys != {} {
            bad := Some(Invalid);
          }
        case Composition => bad := Some(Unsupported);
        case RelativePointer => bad := Some(Unsupported);
        case Feedback(_, _, _, _) => bad := Some(Unsupported);
        case Wheel(_, _, _, dx, dy) =>
          if !WheelBounded(dx) || !WheelBounded(dy) {
            bad := Some(Invalid);
          }
        case _ =>
      }
    }

    method Deliver(frame: Frame) returns (r: Result, ghost delivered: Option<Delivery>)
      requires Guarded()
      modifies this, input
      ensures Guarded()
      ensures Step(View(), r, delivered) == DesktopModel.Deliver(old(View()), frame)
    {
      hide DesktopModel.ReleaseControl, AfterSend;
      delivered := Some(Delivery(frame.attach, frame.epoch, frame.sequence, frame.event));
      match frame.event {
        case PhysicalKey(usage, down, _) =>
          keys := if down then keys + {usage} else keys - {usage};
        case PointerButton(_, _, _, button, down) =>
          buttons := if down then buttons + {button} else buttons - {button};
        case ReleaseAll =>
          keys, buttons := {}, {};
        case _ =>
      }
      var ok := input.Send(frame.event);
      if ok {
        r := Ok;
      } else {
        var _ := ReleaseControl();
        r := Err(Backend);
      }
    }

    /** Drop of an unfinished `InputGuard`. */
    method StreamLost(id: nat, streamEpoch: nat) returns (r: Result)
      requires Guarded()
      modifies this, input
      ensures Guarded()
      ensures Done(View(), r) == DesktopModel.StreamLost(old(View()), id, streamEpoch)
    {
      r := Ok;
      if holder == Some(id) && epoch == streamEpoch {
        r := ReleaseControl();
      }
    }

    /** `Runtime::reconcile_backend`; `recovery` is what the backend's recovery reported. */
    method Reconcile(recovery: Recovery) returns (r: Result)
      requires Guarded()
      modifies this, input, gate
      ensures Guarded()
      ensures Done(View(), r) == DesktopModel.Reconcile(old(View()), recovery)
    {
      hide DesktopModel.Reconcile;
      ghost var s := View();
      ReconcileUnderGuard(s, recovery);
      var admitted := gate.Enter();
      if !admitted {
        return Err(Busy);
      }
      r := Settle(recovery);
      gate.Leave();
    }

    /** The part of reconciliation that runs under the work guard it took. */
    method Settle(recovery: Recovery) returns (r: Result)
      requires Guarded() && !gate.draining && gate.active > |attachments|
      modifies this, input, gate
      ensures Guarded() && gate.active > |attachments|
      ensures Done(View(), r) == DesktopModel.Reconcile(old(View()), recovery)
    {
      hide DesktopModel.NewGeneration;
      if recovery.RecoveryFailed? {
        return Err(recovery.error);
      }
      if recovery.generation == generation {
        return Ok;
      }
      input.TakenOver(recovery.left);
      r := BeginGeneration(recovery.generation);
    }

    method BeginGeneration(next: nat) returns (r: Result)
      requires Guarded() && gate.active > |attachments|
      modifies this, gate
      ensures Guarded() && gate.active > |attachments|
      ensures Done(View(), r) == DesktopModel.NewGeneration(old(View()), next)
    {
      hide Forget;
      ghost var s := View();
      FreshFields(s, next);
      if epoch + 1 > MAX_SAFE {
        return Err(Limit);
      }
      epoch := epoch + 1;
      if layoutEpoch + 1 > MAX_SAFE {
        return Err(Limit);
      }
      layoutEpoch, keys, buttons, poisoned, generation, displays := layoutEpoch + 1, {}, {}, false, next, None;
      Clear();
      r := Ok;
    }

    /** Forget every attachment, and with them every work guard they own. */
    method Clear()
      requires Guarded() && gate.active > |attachments|
      modifies this`attachments, this`holder, gate
      ensures Guarded() && gate.active > |attachments|
      ensures View() == Forget(old(View()), old(attachments).Keys).(holder := None)
    {
      NobodyLeft(attachments);
      LeaveAll(|attachments|);
      holder, attachments := None, map[];
    }

    /** Drop the guards of `n` attachments. */
    method LeaveAll(n: nat)
      requires n <= gate.active
      modifies gate
      ensures gate.View() == old(gate.View()).Left(n)
    {
      for i := 0 to n
        invariant gate.View() == old(gate.View()).Left(i)
      {
        gate.Leave();
      }
    }
  }

  lemma NobodyLeft(m: map<nat, Attachment>)
    ensures m - m.Keys == map[] && |m.Keys| == |m|
  {
  }

  /** The work guard that reconciliation takes is there throughout and gone at the end. */
  lemma ReconcileUnderGuard(s: State, recovery: Recovery)
    requires |s.attachments| <= s.gate.active
    ensures !s.gate.Admits() ==> DesktopModel.Reconcile(s, recovery) == Done(s, Err(Busy))
    ensures s.gate.Admits() ==>
              var x, y := DesktopModel.Reconcile(s, recovery), DesktopModel.Reconcile(s.(gate := s.gate.Entered()), recovery);
              x == Done(y.state.(gate := y.state.gate.Left(1)), y.result)
  {
    NobodyLeft(s.attachments);
  }

  /** A viewport list that was rejected early stays rejected. */
  lemma {:induction false} RejectionPersists(requested: seq<Viewport>, n: nat)
    requires n <= |requested| && Collect(requested, n).Rejected?
    ensures Collect(requested, |requested|) == Collect(requested, n)
    decreases |requested| - n
  {
    if n < |requested| {
      RejectionPersists(requested, n + 1);
    }
  }

  // ----- the loop, as values -----

  /** `s` with the attachments in `done` removed, control released if the holder was one of them. */
  ghost function Removed(s: State, done: set<nat>): State {
    if s.holder.Some? && s.holder.value in done then Forget(DesktopModel.ReleaseControl(s).state, done)
    else Forget(s, done)
  }

  ghost predicate Underway(s: State, done: set<nat>) {
    && !s.poisoned
    && (s.holder.Some? && s.holder.value in done ==> DesktopModel.ReleaseControl(s).result.Ok?)
  }

  lemma NothingRemoved(s: State, doomed: set<nat>)
    ensures Removed(s, {}) == s
    ensures s.poisoned && doomed != {} ==> DesktopModel.RemoveAll(s, doomed, {}) == Done(s, Err(Backend))
  {
  }

  lemma AllRemoved(s: State, doomed: set<nat>, before: set<nat>)
    ensures doomed == {} ==> DesktopModel.RemoveAll(s, doomed, before) == Done(s, Ok)
    ensures doomed != {} && Underway(s, doomed) ==>
              DesktopModel.RemoveAll(s, doomed, before) == Done(Removed(s, doomed), Ok)
  {
  }

  /** Releasing control and forgetting other attachments do not interfere. */
  lemma ReleaseCommutes(s: State, ids: set<nat>)
    ensures var r := DesktopModel.ReleaseControl(s);
            && DesktopModel.ReleaseControl(Forget(s, ids)) == Done(Forget(r.state, ids), r.result)
            && r.state.attachments == s.attachments && r.state.gate == s.gate && r.state.holder == None
            && (r.result.Err? || (r.result.Ok? && r.state.poisoned == s.poisoned))
  {
  }

  /** Forgetting in two goes is forgetting at once. */
  lemma ForgetsOn(s: State, done: set<nat>, id: nat)
    requires done <= s.attachments.Keys && id in s.attachments && id !in done && |s.attachments| <= s.gate.active
    ensures Forget(Forget(s, done), {id}) == Forget(s, done + {id})
    ensures {id} * Forget(s, done).attachments.Keys == {id}
    ensures Forget(s, done + {id}).attachments.Keys == Forget(s, done).attachments.Keys - {id}
  {
    assert s.attachments - done - {id} == s.attachments - (done + {id});
    SubsetSize(done + {id}, s.attachments.Keys);
  }

  /** One removal either ends the loop with its failure or takes one more attachment away. */
  lemma RemoveAdvances(s: State, doomed: set<nat>, done: set<nat>, id: nat)
    requires done <= doomed <= s.attachments.Keys && id in doomed - done
    requires |s.attachments| <= s.gate.active && Underway(s, done)
    ensures var p := DesktopModel.Remove(Removed(s, done), id);
            || (p.result.Err? && p == DesktopModel.RemoveAll(s, doomed, done))
            || (p.result.Ok? && p.state == Removed(s, done + {id}) && Underway(s, done + {id})
                && p.state.attachments.Keys == Removed(s, done).attachments.Keys - {id})
  {
    hide DesktopModel.ReleaseControl, Forget;
    ReleaseCommutes(s, done);
    var r := DesktopModel.ReleaseControl(s);
    ForgetsOn(s, done, id);
    ForgetsOn(r.state, done, id);
    ForgetFrame(s, done);
    ForgetFrame(r.state, done);
    assert done * doomed - {id} == done;
    if s.holder == Some(id) {
      assert Removed(s, done) == Forget(s, done) && Removed(s, done + {id}) == Forget(r.state, done + {id});
    } else if s.holder.Some? && s.holder.value in done {
      assert Removed(s, done + {id}) == Forget(r.state, done + {id});
    } else {
      assert Removed(s, done + {id}) == Forget(s, done + {id});
    }
  }

  /** Renewing the other fields and forgetting everybody can be done in either order. */
  lemma FreshFields(s: State, next: nat)
    ensures var t := s.(epoch := s.epoch + 1, layoutEpoch := s.layoutEpoch + 1, keys := {}, buttons := {},
                        poisoned := false, generation := next, displays := None);
            s.epoch < MAX_SAFE && s.layoutEpoch < MAX_SAFE ==>
              DesktopModel.NewGeneration(s, next) == Done(Forget(t, t.attachments.Keys).(holder := None), Ok)
  {
  }

  lemma ForgetFrame(s: State, ids: set<nat>)
    ensures Forget(s, ids) == s.(attachments := s.attachments - ids, gate := Forget(s, ids).gate)
  {
  }

  lemma SameNumber(m: map<nat, Attachment>)
    ensures WithoutViewports(m).Keys == m.Keys && |WithoutViewports(m)| == |m|
  {
    assert |WithoutViewports(m)| == |WithoutViewports(m).Keys| && |m| == |m.Keys|;
  }

  lemma ForgetsAtMostOne(m: map<nat, Attachment>, id: nat)
    ensures id in m ==> {id} * m.Keys == {id} && |m - {id}| == |m| - 1 && m - ({id} * m.Keys) == m - {id}
    ensures id !in m ==> {id} * m.Keys == {} && m - ({id} * m.Keys) == m
  {
    assert (m - {id}).Keys == m.Keys - {id};
    assert |m - {id}| == |(m - {id}).Keys| && |m| == |m.Keys|;
  }

  lemma GrowsByOne(m: map<nat, Attachment>, id: nat, a: Attachment)
    ensures |m[id := a]| <= |m| + 1
  {
    assert |m[id := a]| == |m[id := a].Keys| && |m| == |m.Keys|;
    assert m[id := a].Keys == m.Keys + {id};
  }
}
