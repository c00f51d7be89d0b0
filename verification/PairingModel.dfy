/** The pairing utility: one pending confirmation, one reply for every request. */
module PairingModel {
  import opened Basics

  datatype Info = Info(config: Octets, url: Octets)

  datatype Route = Idle(info: Info) | Details(info: Info) | Code(model: Octets) | Confirm(model: Octets)

  /** What validation lets through. */
  datatype Request =
    | ConfirmPairing(model: Octets) | ShowCode(model: Octets) | ShowDaemonInfo(info: Info) | Activate | Completed

  /** The checks a request passes before it is looked at: procedure number and payload. */
  type Validator = (nat, Octets) -> Option<Request>

  datatype Answer = Refused | Done | Decided(accepted: bool)

  /** The channel of a request is named by its owner; an answer is sent into it. */
  datatype Reply = Reply(owner: nat, answer: Answer)

  datatype Pending = Pending(connection: nat, owner: nat)

  datatype Gui = Gui(
    info: Info, route: Route, generation: nat, pending: Option<Pending>, disposed: bool, replies: seq<Reply>)

  datatype Effect = Show | Hide | TitleInfo | TitleCode | TitleConfirm | Notify(generation: nat)

  /** A call; a request that fails validation arrives as `None`. */
  datatype Act =
    | Ask(request: Option<Request>, connection: nat, owner: nat)
    | ShowInfo(info: Info)
    | Close
    | Resolve(accepted: bool, generation: nat)
    | Disconnected(connection: nat)
    | Dispose

  function Started(info: Info): Gui {
    Gui(info, Idle(info), 0, None, false, [])
  }

  function Answered(g: Gui, owner: nat, answer: Answer): Gui {
    g.(replies := g.replies + [Reply(owner, answer)])
  }

  function Settled(g: Gui, accepted: bool): Gui {
    if g.pending.None? then g
    else Answered(g, g.pending.value.owner, Decided(accepted)).(pending := None)
  }

  function Routed(g: Gui, route: Route): Gui {
    g.(route := route, generation := g.generation + 1)
  }

  function TitleOf(route: Route): Effect {
    match route case Code(_) => TitleCode case Confirm(_) => TitleConfirm case _ => TitleInfo
  }

  function Closed(g: Gui): Gui {
    if g.disposed || !g.route.Confirm? then g else Routed(Settled(g, false), Idle(g.info))
  }

  /** Missing parts of an announced daemon are filled in from the utility's own. */
  function Filled(g: Gui, info: Info): Info {
    Info(if info.config == [] then g.info.config else info.config, if info.url == [] then g.info.url else info.url)
  }

  function Requested(g: Gui, r: Request, connection: nat, owner: nat): Gui {
    match r
    case ConfirmPairing(model) => Routed(Settled(g, false).(pending := Some(Pending(connection, owner))), Confirm(model))
    case ShowCode(model) => Answered(Routed(Settled(g, false), Code(model)), owner, Done)
    case ShowDaemonInfo(info) => Answered(Routed(Settled(g, false), Details(Filled(g, info))), owner, Done)
    case Activate => Answered(g, owner, Done)
    case Completed => Answered(if g.route.Code? then Routed(g, Idle(g.info)) else g, owner, Done)
  }

  /** What the user gets to see of a request. */
  function Shown(g: Gui, request: Option<Request>): seq<Effect> {
    if g.disposed || request.None? then []
    else
      match request.value
      case ConfirmPairing(_) => [TitleConfirm, Notify(g.generation + 1)]
      case ShowCode(_) => [TitleCode]
      case ShowDaemonInfo(_) => [TitleInfo, Show]
      case Activate => [Show]
      case Completed => if g.route.Code? then [TitleInfo, Hide] else []
  }

  /** Whether a call is carried out at all. */
  predicate Admits(g: Gui, a: Act) {
    match a
    case Ask(request, _, _) => !g.disposed && request.Some?
    case ShowInfo(_) => !g.disposed
    case Close => !g.disposed
    case Resolve(_, generation) => !g.disposed && g.pending.Some? && generation == g.generation
    case Disconnected(connection) => g.pending.Some? && g.pending.value.connection == connection
    case Dispose => true
  }

  function Step(g: Gui, a: Act): Gui {
    if !Admits(g, a) then if a.Ask? then Answered(g, a.owner, Refused) else g
    else
      match a
      case Ask(request, connection, owner) => Requested(g, request.value, connection, owner)
      case ShowInfo(info) => Routed(Settled(g, false), Details(info))
      case Close => Closed(g)
      case Resolve(accepted, _) => Settled(g, accepted)
      case Disconnected(_) => Closed(g)
      case Dispose => Settled(g.(disposed := true), false)
  }

  function After(info: Info, acts: seq<Act>): Gui {
    if acts == [] then Started(info) else Step(After(info, acts[..|acts| - 1]), acts[|acts| - 1])
  }
}
