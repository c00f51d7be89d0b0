/**
 The desktop's attachments, control and input bookkeeping, as values.

 The hardware is a set of controls that are physically down, and a script fixes how
 each event handed to it turns out. Every theorem quantifies over the script, so
 every pattern of send failures is covered.
 */
module DesktopModel {
  import opened Basics
  import opened Maintenance

  const MAX_ATTACHMENTS: nat := 16
  const MAX_VIEWPORTS: nat := 8
  const MAX_BUDGET: nat := 100_000_000
  const LEASE_MS: nat := 15_000

  /** A coordinate: the program only asks whether it is finite and compares it. */
  datatype Number = NotFinite | Finite(value: real)

  datatype Event =
    | PhysicalKey(usage: nat, down: bool, repeat: bool)
    | PointerButton(viewport: Octets, x: Number, y: Number, button: nat, down: bool)
    | AbsolutePointer(viewport: Octets, x: Number, y: Number)
    | Wheel(viewport: Octets, x: Number, y: Number, dx: Number, dy: Number)
    | TextCommit(text: Octets)
    | Composition
    | RelativePointer
    | Feedback(group: nat, decodeMicros: nat, renderMicros: nat, queueDepth: nat)
    | ReleaseAll

  datatype Error = Unauthorized | NotFound | Busy | Stale | Invalid | Unsupported | Limit | Backend

  /** The displays the platform last reported, up to equality. */
  type Displays = Octets

  datatype KeyboardMode = Physical | Text

  datatype Viewport = Viewport(
    id: Octets, display: Octets, width: nat, height: nat, fps: nat, bitrate: nat,
    cropWidth: nat, cropHeight: nat)

  datatype Attachment = Attachment(
    connection: nat, mode: KeyboardMode, client: Octets, deadline: nat,
    sequence: nat, viewports: map<Octets, Viewport>)

  datatype Frame = Frame(attach: nat, epoch: nat, sequence: nat, layoutEpoch: nat, event: Event)

  datatype ControlAction = Acquire | Takeover | Release

  /** How one event handed to the operating system turns out. A failed send leaves any state behind. */
  datatype Outcome = Sent | Failed(held: set<Control>)

  datatype Os = Os(held: set<Control>, script: seq<Outcome>)

  datatype State = State(
    gate: Gate,
    os: Os,
    attachments: map<nat, Attachment>,
    holder: Option<nat>,
    epoch: nat,
    nextId: nat,
    layoutEpoch: nat,
    keys: set<nat>,
    buttons: set<nat>,
    poisoned: bool,
    generation: nat,
    displays: Option<Displays>)

  datatype Result = Ok | Attached(id: nat) | Err(error: Error)

  /** An event that `Input` handed to the operating system, and for whom. */
  datatype Delivery = Delivery(attach: nat, epoch: nat, sequence: nat, event: Event)

  /** A new state and an answer. */
  datatype Done = Done(state: State, result: Result)

  /** The same, with the event that was handed to the operating system. */
  datatype Step = Step(state: State, result: Result, delivered: Option<Delivery>)

  /** The credential store at the moment of the call. */
  type Credentials = (Octets, nat) -> bool

  function Init(script: seq<Outcome>): State {
    State(Gate(false, 0), Os({}, script), map[], None, 1, 0, 1, {}, {}, false, 0, None)
  }

  // ----- the operating system -----

  function Effect(event: Event, held: set<Control>): set<Control> {
    match event
    case PhysicalKey(usage, true, _) => held + {Key(usage)}
    case PhysicalKey(usage, false, _) => held - {Key(usage)}
    case PointerButton(_, _, _, button, true) => held + {Button(button)}
    case PointerButton(_, _, _, button, false) => held - {Button(button)}
    case ReleaseAll => {}
    case _ => held
  }

  predicate SendSucceeds(os: Os) {
    os.script == [] || os.script[0].Sent?
  }

  function AfterSend(os: Os, event: Event): Os {
    var rest := if os.script == [] then [] else os.script[1..];
    if SendSucceeds(os) then Os(Effect(event, os.held), rest) else Os(os.script[0].held, rest)
  }

  /** The controls the state machine believes may be down. */
  ghost predicate Tracks(keys: set<nat>, buttons: set<nat>, c: Control) {
    match c
    case Key(usage) => usage in keys
    case Button(number) => number in buttons
  }

  // ----- releasing control -----

  function ReleaseHeld(s: State): Done {
    var t := s.(os := AfterSend(s.os, ReleaseAll));
    if SendSucceeds(s.os) then Done(t.(keys := {}, buttons := {}), Ok)
    else Done(t.(poisoned := true), Err(Backend))
  }

  function ReleaseControl(s: State): Done {
    var t := s.(holder := None);
    if s.epoch + 1 > MAX_SAFE then Done(t.(poisoned := true), Err(Limit))
    else ReleaseHeld(t.(epoch := s.epoch + 1))
  }

  // ----- removing attachments -----

  /** Forget attachments and drop the work guards they own. */
  function Forget(s: State, ids: set<nat>): State {
    s.(attachments := s.attachments - ids, gate := s.gate.Left(|ids|))
  }

  /** Any number may be named; one that is not attached has no guard to drop. */
  function Remove(s: State, id: nat): Done {
    if s.poisoned then Done(s, Err(Backend))
    else if s.holder == Some(id) then
      var r := ReleaseControl(s);
      if r.result.Err? then r else Done(Forget(r.state, {id} * s.attachments.Keys), Ok)
    else Done(Forget(s, {id} * s.attachments.Keys), Ok)
  }

  /**
   Remove every attachment in `doomed`, stopping at the first failure.
   `before` are the ones the iteration visits ahead of the control holder.
   */
  function RemoveAll(s: State, doomed: set<nat>, before: set<nat>): Done {
    if doomed == {} then Done(s, Ok)
    else if s.poisoned then Done(s, Err(Backend))
    else if s.holder.Some? && s.holder.value in doomed then
      var r := ReleaseControl(s);
      if r.result.Err? then Done(Forget(r.state, before * doomed - {s.holder.value}), r.result)
      else Done(Forget(r.state, doomed), Ok)
    else Done(Forget(s, doomed), Ok)
  }

  function Dead(s: State, valid: Credentials, now: nat): set<nat> {
    set id | id in s.attachments
           && (now >= s.attachments[id].deadline || !valid(s.attachments[id].client, now))
  }

  function OnConnection(s: State, connection: nat): set<nat> {
    set id | id in s.attachments && s.attachments[id].connection == connection
  }

  function Expire(s: State, valid: Credentials, now: nat, before: set<nat>): Done {
    RemoveAll(s, Dead(s, valid, now), before)
  }

  function Disconnect(s: State, connection: nat, before: set<nat>): Done {
    RemoveAll(s, OnConnection(s, connection), before)
  }

  // ----- operations of one attachment -----

  function Authorize(s: State, valid: Credentials, connection: nat, id: nat, now: nat, before: set<nat>): Done {
    var e := Expire(s, valid, now, before);
    if e.result.Err? then e
    else if id !in e.state.attachments then Done(e.state, Err(NotFound))
    else if e.state.attachments[id].connection != connection then Done(e.state, Err(Unauthorized))
    else if e.state.poisoned then Done(e.state, Err(Backend))
    else Done(e.state, Ok)
  }

  function Attach(s: State, valid: Credentials, connection: nat, client: Octets, mode: KeyboardMode,
                  now: nat, before: set<nat>): Done {
    var e := Expire(s, valid, now, before);
    var t := e.state;
    if e.result.Err? then e
    else if !valid(client, now) then Done(t, Err(Unauthorized))
    else if t.poisoned then Done(t, Err(Backend))
    else if |t.attachments| >= MAX_ATTACHMENTS then Done(t, Err(Limit))
    else if !t.gate.Admits() then Done(t, Err(Busy))
    else if t.nextId + 1 > MAX_SAFE then Done(t, Err(Limit))
    else
      var id := t.nextId + 1;
      var a := Attachment(connection, mode, client, SaturatingAdd(now, LEASE_MS), 0, map[]);
      Done(t.(gate := t.gate.Entered(), nextId := id, attachments := t.attachments[id := a]), Attached(id))
  }

  function Detach(s: State, valid: Credentials, connection: nat, id: nat, now: nat, before: set<nat>): Done {
    var a := Authorize(s, valid, connection, id, now, before);
    if a.result.Err? then a else Remove(a.state, id)
  }

  function Renew(s: State, valid: Credentials, connection: nat, id: nat, now: nat, before: set<nat>): Done {
    var a := Authorize(s, valid, connection, id, now, before);
    if a.result.Err? then a
    else
      var t := a.state;
      var renewed := t.attachments[id].(deadline := SaturatingAdd(now, LEASE_MS));
      Done(t.(attachments := t.attachments[id := renewed]), Ok)
  }

  function SetControl(s: State, valid: Credentials, connection: nat, id: nat, now: nat,
                      action: ControlAction, before: set<nat>): Done {
    var a := Authorize(s, valid, connection, id, now, before);
    var t := a.state;
    if a.result.Err? then a
    else if action.Release? then
      if t.holder == Some(id) then ReleaseControl(t) else Done(t, Ok)
    else if t.holder == Some(id) then Done(t, Ok)
    else if t.holder.Some? && action.Acquire? then Done(t, Err(Busy))
    else
      var r := ReleaseControl(t);
      if r.result.Err? then r else Done(r.state.(holder := Some(id)), Ok)
  }

  // ----- viewports -----

  predicate ViewportInBounds(v: Viewport) {
    && 0 < |v.id| <= 128
    && |v.display| <= 128
    && 0 < v.width <= 8192
    && 0 < v.height <= 8192
    && 0 < v.fps <= 120
    && v.bitrate != 0
    && v.cropWidth != 0
    && v.cropHeight != 0
  }

  datatype Collected = Collected(viewports: map<Octets, Viewport>, total: nat) | Rejected(error: Error)

  /** The viewport table and total bit rate of the first `n` requested viewports. */
  function Collect(requested: seq<Viewport>, n: nat): Collected
    requires n <= |requested|
  {
    if n == 0 then Collected(map[], 0)
    else
      var c := Collect(requested, n - 1);
      var v := requested[n - 1];
      if c.Rejected? then c
      else if !ViewportInBounds(v) then Rejected(Invalid)
      else if c.total + v.bitrate > U64_MAX then Rejected(Limit)
      else if v.id in c.viewports then Rejected(Invalid)
      else Collected(c.viewports[v.id := v], c.total + v.bitrate)
  }

  function Configure(s: State, valid: Credentials, connection: nat, id: nat, now: nat,
                     layout: nat, requested: seq<Viewport>, budget: nat, before: set<nat>): Done {
    var a := Authorize(s, valid, connection, id, now, before);
    var t := a.state;
    if a.result.Err? then a
    else if layout != t.layoutEpoch then Done(t, Err(Stale))
    else if |requested| > MAX_VIEWPORTS || budget == 0 || budget > MAX_BUDGET then Done(t, Err(Limit))
    else
      var c := Collect(requested, |requested|);
      if c.Rejected? then Done(t, Err(c.error))
      else if c.total > budget then Done(t, Err(Limit))
      else Done(t.(attachments := t.attachments[id := t.attachments[id].(viewports := c.viewports)]), Ok)
  }

  function WithoutViewports(attachments: map<nat, Attachment>): map<nat, Attachment> {
    map id | id in attachments :: attachments[id].(viewports := map[])
  }

  function LayoutChanged(s: State): Done {
    if s.layoutEpoch + 1 > MAX_SAFE then Done(s, Err(Limit))
    else
      Done(s.(layoutEpoch := s.layoutEpoch + 1, attachments := WithoutViewports(s.attachments)), Ok)
  }

  /**
   The platform reports its displays. If they are new, what is held is released
   first; a release that fails poisons with the holder still set, and the layout stays.
   */
  function RefreshLayout(s: State, displays: Displays): Done {
    if s.displays == Some(displays) then Done(s, Ok)
    else if s.displays.None? then Done(s.(displays := Some(displays)), Ok)
    else
      var r := if s.holder.Some? then ReleaseHeld(s) else Done(s, Ok);
      if r.result.Err? then r
      else
        var l := LayoutChanged(r.state);
        if l.result.Err? then l else Done(l.state.(displays := Some(displays)), Ok)
  }

  // ----- input -----

  /** The point an event aims at, if it has to lie inside a configured viewport. */
  function Point(event: Event): Option<(Octets, Number, Number)> {
    match event
    case AbsolutePointer(v, x, y) => Some((v, x, y))
    case PointerButton(v, x, y, _, true) => Some((v, x, y))
    case Wheel(v, x, y, _, _) => Some((v, x, y))
    case _ => None
  }

  predicate Inside(n: Number, extent: nat) {
    n.Finite? && 0.0 <= n.value < extent as real
  }

  function PointError(s: State, a: Attachment, frame: Frame): Option<Error> {
    match Point(frame.event)
    case None => None
    case Some((v, x, y)) =>
      if frame.layoutEpoch != s.layoutEpoch then Some(Stale)
      else if v !in a.viewports then Some(Invalid)
      else if !Inside(x, a.viewports[v].width) || !Inside(y, a.viewports[v].height) then Some(Invalid)
      else None
  }

  predicate WheelBounded(n: Number) {
    n.Finite? && -100_000.0 <= n.value <= 100_000.0
  }

  function EventError(s: State, a: Attachment, event: Event): Option<Error> {
    match event
    case PhysicalKey(usage, down, repeat) =>
      if (a.mode.Text? && !(224 <= usage <= 231)) || !(4 <= usage <= 231)
         || (repeat && (!down || usage !in s.keys))
      then Some(Invalid) else None
    case PointerButton(_, _, _, button, _) => if 1 <= button <= 5 then None else Some(Invalid)
    case TextCommit(text) =>
      if !a.mode.Text? || |text| > 4096 || 0 in text || s.keys != {} then Some(Invalid) else None
    case Composition => Some(Unsupported)
    case RelativePointer => Some(Unsupported)
    case Feedback(_, _, _, _) => Some(Unsupported)
    case Wheel(_, _, _, dx, dy) => if WheelBounded(dx) && WheelBounded(dy) then None else Some(Invalid)
    case _ => None
  }

  /** The key and button bookkeeping done just before an event is sent. */
  function Noted(s: State, event: Event): State {
    match event
    case PhysicalKey(usage, down, _) =>
      s.(keys := if down then s.keys + {usage} else s.keys - {usage})
    case PointerButton(_, _, _, button, down) =>
      s.(buttons := if down then s.buttons + {button} else s.buttons - {button})
    case ReleaseAll => s.(keys := {}, buttons := {})
    case _ => s
  }

  /** Hand an admitted event to the operating system; a failed send gives up control. */
  function Deliver(s: State, frame: Frame): Step {
    var noted := Noted(s, frame.event);
    var sent := noted.(os := AfterSend(s.os, frame.event));
    var d := Some(Delivery(frame.attach, frame.epoch, frame.sequence, frame.event));
    if SendSucceeds(s.os) then Step(sent, Ok, d)
    else Step(ReleaseControl(sent).state, Err(Backend), d)
  }

  function Input(s: State, valid: Credentials, connection: nat, now: nat, frame: Frame, before: set<nat>): Step {
    var p := Authorize(s, valid, connection, frame.attach, now, before);
    var t := p.state;
    if p.result.Err? then Step(t, p.result, None)
    else if t.holder != Some(frame.attach) || frame.epoch != t.epoch then Step(t, Err(Stale), None)
    else
      var a := t.attachments[frame.attach];
      if frame.sequence != a.sequence + 1 || frame.sequence > MAX_SAFE then Step(t, Err(Stale), None)
      else
        // The number is spent before the event is judged: a rejected press does not hold up its release.
        var u := t.(attachments := t.attachments[frame.attach := a.(sequence := frame.sequence)]);
        var point := PointError(u, a, frame);
        if point.Some? then Step(u, Err(point.value), None)
        else
          var bad := EventError(u, a, frame.event);
          if bad.Some? then Step(u, Err(bad.value), None) else Deliver(u, frame)
  }

  predicate FeedbackBounded(event: Event) {
    event.Feedback? ==>
      event.group != 0 && event.decodeMicros <= 60_000_000 && event.renderMicros <= 60_000_000 && event.queueDepth <= 256
  }

  /**
   Decoder feedback spends a number of its attachment, which need not hold control,
   and never reaches the hardware. `configured` says whether the configuration in
   force has the layout epoch and the track the feedback names.
   */
  function AcceptFeedback(s: State, valid: Credentials, connection: nat, now: nat, frame: Frame,
                          configured: bool, before: set<nat>): Done {
    var p := Authorize(s, valid, connection, frame.attach, now, before);
    var t := p.state;
    if p.result.Err? then p
    else if !configured then Done(t, Err(Stale))
    else if !FeedbackBounded(frame.event) then Done(t, Err(Limit))
    else
      var a := t.attachments[frame.attach];
      if frame.sequence != a.sequence + 1 || frame.sequence > MAX_SAFE then Done(t, Err(Stale))
      else Done(t.(attachments := t.attachments[frame.attach := a.(sequence := frame.sequence)]), Ok)
  }

  /** An input stream ended without completing: give up control if it is still the stream's. */
  function StreamLost(s: State, id: nat, epoch: nat): Done {
    if s.holder == Some(id) && s.epoch == epoch then ReleaseControl(s) else Done(s, Ok)
  }

  // ----- recovery -----

  /**
   What `Backend::recover` reports: a failure, or the generation it confirmed. `left`
   is what the confirmed recovery left down, which the program does not get to see.
   */
  datatype Recovery = RecoveryFailed(error: Error) | Recovered(generation: nat, left: set<Control>)

  /** Start over for a new helper generation, unless a counter is exhausted. */
  function NewGeneration(s: State, generation: nat): Done {
    if s.epoch + 1 > MAX_SAFE then Done(s, Err(Limit))
    else if s.layoutEpoch + 1 > MAX_SAFE then Done(s.(epoch := s.epoch + 1), Err(Limit))
    else
      Done(Forget(s, s.attachments.Keys)
           .(epoch := s.epoch + 1, layoutEpoch := s.layoutEpoch + 1, holder := None, keys := {},
             buttons := {}, poisoned := false, generation := generation, displays := None), Ok)
  }

  /**
   A recovery that confirms a new generation starts over, whatever it left down.
   `IpcSafety.AcknowledgedRecoveryReleasesEverything` says when that is nothing.
   */
  function Reconcile(s: State, recovery: Recovery): Done {
    if !s.gate.Admits() then Done(s, Err(Busy))
    else if recovery.RecoveryFailed? then Done(s, Err(recovery.error))
    else if recovery.generation == s.generation then Done(s, Ok)
    else NewGeneration(s.(os := s.os.(held := recovery.left)), recovery.generation)
  }
}
