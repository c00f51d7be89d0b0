/**
 The private channel between the daemon and its desktop helper, as steps.

 Host side: the proxy worker, its ledger of controls that may be down, request
 numbers that restart on each connection, and the generation that fences old
 calls. Helper side: one session per connection, served strictly in order and one
 session at a time. The network loses nothing on its own, but a connection may be
 lost, a helper may crash, and a request of a lost connection may still execute.
 */
module IpcModel {
  import opened Basics

  const MAX_PENDING: nat := 16

  // ----- commands and the ledger -----

  datatype Command =
    | Press(control: Control)
    | Lift(control: Control)
    | LiftAll
    | Recover(controls: set<Control>)
    /** Everything that moves no key or button: pings, queries, pointer motion, tracks. */
    | Other

  /** Each control that may be down, with the number of the latest request that pressed it. */
  type Ledger = map<Control, nat>

  function Record(l: Ledger, command: Command, id: nat): Ledger {
    if command.Press? then l[command.control := id] else l
  }

  /** Forget what a confirmed command has released, but nothing pressed after it. */
  function Acknowledge(l: Ledger, command: Command, id: nat): Ledger {
    match command
    case Recover(_) => map[]
    case Lift(control) => map c | c in l && (c != control || l[c] > id) :: l[c]
    case LiftAll => map c | c in l && l[c] > id :: l[c]
    case _ => l
  }

  // ----- the host -----

  /** What a caller queues. A recovery call names no controls; only opening a connection fills them in. */
  datatype Call = RecoveryCall(generation: nat) | PlainCall(command: Command, generation: nat)

  datatype Pending = Pending(command: Command, recovery: bool, expired: bool)

  datatype Link = Down | Up(next: nat, started: bool, pending: map<nat, Pending>)

  datatype Host = Host(ledger: Ledger, generation: nat, ready: bool, link: Link)

  // ----- the helper -----

  /** `start` marks the request that opens the stream. Number 0 is a heartbeat. */
  datatype Request = Request(id: nat, command: Command, start: bool)

  datatype Response = Response(id: nat, done: bool)

  /** One connection as its helper sees it; `own` are the controls this helper would release. */
  datatype Session = Session(
    requests: seq<Request>, responses: seq<Response>,
    serving: bool, first: bool, last: nat, own: set<Control>)

  /** Sessions in the order they own the desktop; while the link is up, the last one is the host's. */
  datatype System = System(host: Host, sessions: seq<Session>, held: set<Control>)

  function Init(): System {
    System(Host(map[], 0, false, Down), [], {})
  }

  // ----- host steps -----

  /** What the worker does with a call it takes from its queue. */
  datatype Disposition = Refuse | Exhaust | Drop | Send

  function Dispose(h: Host, call: Call, expired: bool): Disposition
    requires h.link.Up?
  {
    if call.generation != h.generation then Refuse
    else if !h.ready && call.generation != 0 && !call.RecoveryCall? then Refuse
    else if h.link.next + 1 > MAX_SAFE then Exhaust
    else if expired then Drop
    else Send
  }

  /** The worker gives up the connection: everything still pending fails. */
  function Lose(h: Host): Host {
    h.(ready := false, generation := h.generation + 1, link := Down)
  }

  /** Number a call, note what it presses, and put it on the wire. */
  function Submit(h: Host, call: Call, command: Command, expired: bool): Host
    requires h.link.Up?
  {
    var next := h.link.next + 1;
    match Dispose(h, call, expired)
    case Refuse => h
    case Exhaust => Lose(h)
    case Drop => h.(link := h.link.(next := next))
    case Send =>
      h.(ledger := Record(h.ledger, command, next),
         link := Up(next, true, h.link.pending[next := Pending(command, call.RecoveryCall?, false)]))
  }

  /** The command of a call that does not open a connection. */
  function Bare(call: Call): Command {
    if call.RecoveryCall? then Recover({}) else call.command
  }

  /** The command of a call that opens one: recovery carries every control that may be down. */
  function Opening(h: Host, call: Call): Command {
    if call.RecoveryCall? then Recover(h.ledger.Keys) else call.command
  }

  /** A response arrives; an unexpected, late or failed-recovery one ends the connection. */
  function Receive(h: Host, r: Response): Host
    requires h.link.Up?
  {
    if r.id == 0 then (if r.done then h else Lose(h))
    else if r.id !in h.link.pending then Lose(h)
    else
      var p := h.link.pending[r.id];
      var rest := h.(link := h.link.(pending := h.link.pending - {r.id}));
      if p.expired then Lose(rest)
      else if p.recovery && !r.done then Lose(rest)
      else
        var acked := if r.done then rest.(ledger := Acknowledge(rest.ledger, p.command, r.id)) else rest;
        if p.recovery || h.generation == 0 then acked.(ready := true) else acked
  }

  // ----- helper steps -----

  /** Whether the helper's protocol rules let it execute a request; otherwise it ends the session. */
  predicate Accepts(s: Session, r: Request) {
    && r.start == s.first
    && (r.command.Recover? ==> s.first)
    && (if r.id == 0 then r.command.Other? else s.last < r.id)
  }

  predicate InRange(c: Control) {
    match c
    case Key(usage) => 4 <= usage <= 231
    case Button(number) => 1 <= number <= 5
  }

  /** The bounds `execute` puts on a recovery request. */
  predicate RecoverAccepted(controls: set<Control>) {
    var keys := set c | c in controls && c.Key?;
    var buttons := set c | c in controls && c.Button?;
    && |keys| <= 228
    && |buttons| <= 5
    && forall c :: c in controls ==> InRange(c)
  }

  /** What executing a command may leave down. A failed one may have done any part of its work. */
  predicate MayLeave(command: Command, own: set<Control>, held: set<Control>, ok: bool, after: set<Control>) {
    match command
    case Press(c) => if ok then after == held + {c} else held <= after <= held + {c}
    case Lift(c) => if ok then after == held - {c} else held - {c} <= after <= held
    case LiftAll => if ok then after == held - own else held - own <= after <= held
    case Recover(cs) =>
      if ok then RecoverAccepted(cs) && after == held - (own + cs) else held - (own + cs) <= after <= held
    case Other => after == held
  }

  function OwnAfter(command: Command, own: set<Control>, ok: bool): set<Control> {
    match command
    case Press(c) => own + {c}
    case Lift(c) => if ok then own - {c} else own
    case LiftAll => if ok then {} else own
    case Recover(cs) => if ok then {} else own + cs
    case Other => own
  }

  function Executed(s: Session, ok: bool): Session
    requires s.requests != []
  {
    var r := s.requests[0];
    var rest := s.(requests := s.requests[1..]);
    if !Accepts(s, r) then rest.(serving := false)
    else if r.id == 0 then rest.(first := false, responses := s.responses + [Response(0, true)])
    else rest.(first := false, last := r.id, own := OwnAfter(r.command, s.own, ok),
               responses := s.responses + [Response(r.id, ok)])
  }

  // ----- the whole system -----

  datatype Step =
    /** Connect for a call; `expired` if its deadline has passed by then. */
    | Opens(call: Call, expired: bool)
    | Submits(call: Call, expired: bool)
    | Heartbeat
    /** The deadline of a pending call passes. */
    | Expires(id: nat)
    /** The session that owns the desktop executes its next request. */
    | Executes(ok: bool, after: set<Control>)
    | Receives
    /** The host loses the connection. */
    | Loses
    /** The helper that owns the desktop dies or cleans up; controls it held may stay down. */
    | Dies(after: set<Control>)

  function Live(s: System): Session
    requires s.sessions != []
  {
    s.sessions[|s.sessions| - 1]
  }

  function WithLive(s: System, live: Session): seq<Session>
    requires s.sessions != []
  {
    s.sessions[|s.sessions| - 1 := live]
  }

  /** Put a request on the wire, if the worker sent one. */
  function Wired(live: Session, before: Host, call: Call, command: Command, expired: bool): Session
    requires before.link.Up?
  {
    if Dispose(before, call, expired).Send? then
      live.(requests := live.requests + [Request(before.link.next + 1, command, !before.link.started)])
    else live
  }

  /** Callers hold the desktop lock around input and around recovery, until a reply or the deadline. */
  predicate LockFree(h: Host, call: Call) {
    h.link.Up? && call.PlainCall? && call.command.Press? ==>
      forall id :: id in h.link.pending ==> !h.link.pending[id].recovery || h.link.pending[id].expired
  }

  const NEW_SESSION := Session([], [], true, true, 0, {})

  predicate Enabled(s: System, step: Step) {
    var h := s.host;
    match step
    case Opens(call, _) =>
      && h.link.Down?
      && call.generation == h.generation
      && (h.generation == 0 || call.RecoveryCall?)
      && (call.PlainCall? ==> !call.command.Recover?)
    case Submits(call, _) =>
      && h.link.Up? && s.sessions != []
      && |h.link.pending| < MAX_PENDING
      && (call.PlainCall? ==> !call.command.Recover?)
      && LockFree(h, call)
    case Heartbeat => h.link.Up? && s.sessions != []
    case Expires(id) => h.link.Up? && id in h.link.pending
    case Executes(ok, after) =>
      && s.sessions != [] && s.sessions[0].serving && s.sessions[0].requests != []
      && var r := s.sessions[0].requests[0];
         if Accepts(s.sessions[0], r) then MayLeave(r.command, s.sessions[0].own, s.held, ok, after)
         else after <= s.held
    case Receives => h.link.Up? && s.sessions != [] && Live(s).responses != []
    case Loses => h.link.Up?
    case Dies(after) => s.sessions != [] && after <= s.held
  }

  function Apply(s: System, step: Step): System
    requires Enabled(s, step)
  {
    var h := s.host;
    match step
    case Opens(call, expired) =>
      var up := h.(link := Up(0, false, map[]));
      var command := Opening(h, call);
      s.(host := Submit(up, call, command, expired),
         sessions := s.sessions + [Wired(NEW_SESSION, up, call, command, expired)])
    case Submits(call, expired) =>
      s.(host := Submit(h, call, Bare(call), expired),
         sessions := WithLive(s, Wired(Live(s), h, call, Bare(call), expired)))
    case Heartbeat =>
      s.(sessions := WithLive(s, Live(s).(requests := Live(s).requests + [Request(0, Other, false)])))
    case Expires(id) =>
      s.(host := h.(link := h.link.(pending := h.link.pending[id := h.link.pending[id].(expired := true)])))
    case Executes(ok, after) =>
      System(h, s.sessions[0 := Executed(s.sessions[0], ok)], after)
    case Receives =>
      s.(host := Receive(h, Live(s).responses[0]),
         sessions := WithLive(s, Live(s).(responses := Live(s).responses[1..])))
    case Loses => s.(host := Lose(h))
    case Dies(after) =>
      // A lost connection's session leaves the queue; the live one stays, dead, until the host notices.
      System(h, if |s.sessions| == 1 && h.link.Up? then [s.sessions[0].(serving := false)] else s.sessions[1..], after)
  }
}
