/** What the pairing utility promises to those who ask. */
module Pairing {
  import opened Basics
  import opened PairingModel

  // ----- every request is answered exactly once -----

  function Askers(acts: seq<Act>): multiset<nat> {
    if acts == [] then multiset{}
    else Askers(acts[..|acts| - 1]) +
         (if acts[|acts| - 1].Ask? then multiset{acts[|acts| - 1].owner} else multiset{})
  }

  function Owners(replies: seq<Reply>): multiset<nat> {
    if replies == [] then multiset{}
    else Owners(replies[..|replies| - 1]) + multiset{replies[|replies| - 1].owner}
  }

  /** Answered and still waiting. */
  function Served(g: Gui): multiset<nat> {
    Owners(g.replies) + (if g.pending.Some? then multiset{g.pending.value.owner} else multiset{})
  }

  ghost predicate Sound(g: Gui) {
    g.pending.Some? ==> g.route.Confirm? && !g.disposed
  }

  lemma AnsweredServes(g: Gui, owner: nat, answer: Answer)
    ensures Served(Answered(g, owner, answer)) == Served(g) + multiset{owner}
  {
    var replies := g.replies + [Reply(owner, answer)];
    assert replies[..|replies| - 1] == g.replies;
  }

  lemma SettledServes(g: Gui, accepted: bool)
    ensures Served(Settled(g, accepted)) == Served(g) && Settled(g, accepted).pending.None?
  {
    hide Owners;
    if g.pending.Some? {
      var released := g.(pending := None);
      assert Served(g) == Served(released) + multiset{g.pending.value.owner};
      AnsweredServes(released, g.pending.value.owner, Decided(accepted));
    }
  }

  lemma RoutedServes(g: Gui, route: Route)
    ensures Served(Routed(g, route)) == Served(g)
  {
  }

  lemma PendingServes(g: Gui, connection: nat, owner: nat)
    requires g.pending.None?
    ensures Served(g.(pending := Some(Pending(connection, owner)))) == Served(g) + multiset{owner}
  {
  }

  lemma RequestedServes(g: Gui, r: Request, connection: nat, owner: nat)
    ensures Served(Requested(g, r, connection, owner)) == Served(g) + multiset{owner}
  {
    hide Served, Answered, Settled, Routed;
    SettledServes(g, false);
    var s := Settled(g, false);
    match r
    case ConfirmPairing(model) =>
      PendingServes(s, connection, owner);
      RoutedServes(s.(pending := Some(Pending(connection, owner))), Confirm(model));
    case ShowCode(model) =>
      RoutedServes(s, Code(model));
      AnsweredServes(Routed(s, Code(model)), owner, Done);
    case ShowDaemonInfo(info) =>
      RoutedServes(s, Details(Filled(g, info)));
      AnsweredServes(Routed(s, Details(Filled(g, info))), owner, Done);
    case Activate => AnsweredServes(g, owner, Done);
    case Completed =>
      RoutedServes(g, Idle(g.info));
      AnsweredServes(g, owner, Done);
      AnsweredServes(Routed(g, Idle(g.info)), owner, Done);
  }

  lemma StepServes(g: Gui, a: Act)
    ensures Served(Step(g, a)) == Served(g) + (if a.Ask? then multiset{a.owner} else multiset{})
  {
    hide Served, Answered, Settled, Routed, Requested;
    var s := Settled(g, false);
    SettledServes(g, false);
    match a
    case Ask(request, connection, owner) =>
      AnsweredServes(g, owner, Refused);
      if request.Some? {
        RequestedServes(g, request.value, connection, owner);
      }
    case ShowInfo(info) => RoutedServes(s, Details(info));
    case Close => RoutedServes(s, Idle(g.info));
    case Resolve(accepted, _) => SettledServes(g, accepted);
    case Disconnected(_) => RoutedServes(s, Idle(g.info));
    case Dispose =>
      DisposedServes(g);
      SettledServes(g.(disposed := true), false);
  }

  lemma DisposedServes(g: Gui)
    ensures Served(g.(disposed := true)) == Served(g)
  {
  }

  lemma StepSound(g: Gui, a: Act)
    requires Sound(g)
    ensures Sound(Step(g, a))
  {
  }

  lemma AnsweredKeeps(g: Gui, owner: nat, answer: Answer)
    ensures Answered(g, owner, answer) == g.(replies := Answered(g, owner, answer).replies)
  {
  }

  lemma SettledKeeps(g: Gui, accepted: bool)
    ensures Settled(g, accepted) == g.(replies := Settled(g, accepted).replies, pending := None)
  {
  }

  /** Requests are neither lost nor answered twice: at any time one is answered or the one pending. */
  lemma {:induction false} RequestsAreConserved(info: Info, acts: seq<Act>)
    ensures Sound(After(info, acts)) && Served(After(info, acts)) == Askers(acts)
  {
    hide Step, Served, Sound;
    if acts == [] {
      StartServes(info);
    } else {
      RequestsAreConserved(info, acts[..|acts| - 1]);
      StepServes(After(info, acts[..|acts| - 1]), acts[|acts| - 1]);
      StepSound(After(info, acts[..|acts| - 1]), acts[|acts| - 1]);
    }
  }

  lemma StartServes(info: Info)
    ensures Sound(Started(info)) && Served(Started(info)) == multiset{}
  {
  }

  /** Once disposed, always disposed. */
  lemma {:induction false} DisposedStays(info: Info, acts: seq<Act>, i: nat)
    requires i < |acts| && acts[i].Dispose?
    ensures After(info, acts).disposed
  {
    hide Step;
    var front := acts[..|acts| - 1];
    if i < |front| {
      DisposedStays(info, front, i);
      StepDisposes(After(info, front), acts[|acts| - 1]);
    } else {
      StepDisposes(After(info, front), Dispose);
    }
  }

  lemma StepDisposes(g: Gui, a: Act)
    requires g.disposed || a.Dispose?
    ensures Step(g, a).disposed
  {
  }

  /** In a run that disposes the utility every request has exactly one reply. */
  lemma ExactlyOneReply(info: Info, acts: seq<Act>, i: nat)
    requires i < |acts| && acts[i].Dispose?
    ensures Owners(After(info, acts).replies) == Askers(acts) && After(info, acts).pending.None?
  {
    hide Owners, Askers, After;
    RequestsAreConserved(info, acts);
    DisposedStays(info, acts, i);
  }

  // ----- who may accept -----

  /** The confirmation that is pending was put up by call `i` and has stood since. */
  ghost predicate Stands(info: Info, acts: seq<Act>, i: nat) {
    && i < |acts| && acts[i].Ask? && acts[i].request.Some? && acts[i].request.value.ConfirmPairing?
    && var shown, now := After(info, acts[..i + 1]), After(info, acts);
       && !After(info, acts[..i]).disposed
       && now.pending == shown.pending == Some(Pending(acts[i].connection, acts[i].owner))
       && now.generation == shown.generation
       && now.route == shown.route == Confirm(acts[i].request.value.model)
  }

  lemma StepKeepsPending(g: Gui, a: Act)
    requires Sound(g) && Step(g, a).pending.Some?
    ensures
      || (Step(g, a).pending == g.pending && Step(g, a).generation == g.generation && Step(g, a).route == g.route)
      || (Admits(g, a) && a.Ask? && a.request.value.ConfirmPairing?
          && Step(g, a).pending == Some(Pending(a.connection, a.owner)) && Step(g, a).route == Confirm(a.request.value.model))
  {
    hide Answered;
    SettledKeeps(g, false);
    SettledKeeps(g, true);
    SettledKeeps(g.(disposed := true), false);
    if a.Ask? {
      forall h: Gui, answer: Answer
        ensures Answered(h, a.owner, answer) == h.(replies := Answered(h, a.owner, answer).replies)
      {
        AnsweredKeeps(h, a.owner, answer);
      }
    }
  }

  /** A pending confirmation is on display, under the generation it was displayed with. */
  lemma {:induction false} PendingStands(info: Info, acts: seq<Act>) returns (i: nat)
    requires After(info, acts).pending.Some?
    ensures Stands(info, acts, i)
  {
    hide Step, Admits;
    var front, a := acts[..|acts| - 1], acts[|acts| - 1];
    RequestsAreConserved(info, front);
    StepKeepsPending(After(info, front), a);
    assert acts[..|acts|] == acts;
    if After(info, acts).pending == After(info, front).pending && After(info, acts).generation == After(info, front).generation
       && After(info, acts).route == After(info, front).route {
      i := PendingStands(info, front);
      assert acts[..i + 1] == front[..i + 1] && acts[..i] == front[..i];
    } else {
      i := |acts| - 1;
      AdmittedIsAlive(After(info, front), a);
    }
  }

  lemma AdmittedIsAlive(g: Gui, a: Act)
    requires Admits(g, a) && a.Ask?
    ensures !g.disposed && a.request.Some?
  {
  }

  predicate Accepts(r: Reply) {
    r.answer == Decided(true)
  }

  lemma StepReplies(g: Gui, a: Act)
    ensures |g.replies| <= |Step(g, a).replies| <= |g.replies| + 2
    ensures Step(g, a).replies[..|g.replies|] == g.replies
    ensures forall j :: |g.replies| <= j < |Step(g, a).replies| && Accepts(Step(g, a).replies[j]) ==>
              Admits(g, a) && a == Resolve(true, g.generation) && g.pending.Some?
              && Step(g, a).replies[j].owner == g.pending.value.owner
  {
  }

  /** Reply `j` was an acceptance given by call `at`, to the confirmation that call `shown` put up. */
  ghost predicate AcceptedBy(info: Info, acts: seq<Act>, j: nat, shown: nat, at: nat) {
    && shown < at < |acts| && j < |After(info, acts).replies|
    && Stands(info, acts[..at], shown)
    && acts[at] == Resolve(true, After(info, acts[..shown + 1]).generation)
    && After(info, acts).replies[j] == Reply(acts[shown].owner, Decided(true))
  }

  /** Every acceptance ever sent answers the confirmation on display, named by its own generation. */
  lemma {:induction false} AcceptedByItsGeneration(info: Info, acts: seq<Act>, j: nat) returns (shown: nat, at: nat)
    requires j < |After(info, acts).replies| && Accepts(After(info, acts).replies[j])
    ensures AcceptedBy(info, acts, j, shown, at)
  {
    hide Step, Admits, Stands;
    var front, a := acts[..|acts| - 1], acts[|acts| - 1];
    var g := After(info, front);
    StepReplies(g, a);
    if j < |g.replies| {
      assert g.replies[j] == After(info, acts).replies[j];
      shown, at := AcceptedByItsGeneration(info, front, j);
      assert acts[..at] == front[..at] && acts[..shown + 1] == front[..shown + 1];
    } else {
      shown := PendingStands(info, front);
      at := |acts| - 1;
      StandsFacts(info, front, shown);
      assert acts[..at] == front && acts[..shown + 1] == front[..shown + 1];
    }
  }

  lemma StandsFacts(info: Info, acts: seq<Act>, i: nat)
    requires Stands(info, acts, i)
    ensures i < |acts| && acts[i].Ask? && After(info, acts).generation == After(info, acts[..i + 1]).generation
    ensures After(info, acts).pending == Some(Pending(acts[i].connection, acts[i].owner))
  {
  }

  /** The user is told the generation under which the confirmation is put up, and told nothing older. */
  lemma NotifiedGeneration(g: Gui, request: Option<Request>, connection: nat, owner: nat, generation: nat)
    ensures Notify(generation) in Shown(g, request) <==>
            !g.disposed && request.Some? && request.value.ConfirmPairing?
            && Step(g, Ask(request, connection, owner)).generation == generation
    ensures Notify(generation) in Shown(g, request) ==>
            Step(g, Ask(request, connection, owner)).pending == Some(Pending(connection, owner))
  {
  }

  // ----- what is turned away -----

  /** `g` with one more reply, sent after the first `k`. */
  function Patched(g: Gui, k: nat, reply: Reply): Gui
    requires k <= |g.replies|
  {
    g.(replies := g.replies[..k] + [reply] + g.replies[k..])
  }

  /** Replies sent before a call make no difference to it, and it only adds to them. */
  lemma StepPatched(g: Gui, a: Act, k: nat, reply: Reply)
    requires k <= |g.replies|
    ensures |g.replies| <= |Step(g, a).replies|
    ensures Step(Patched(g, k, reply), a) == Patched(Step(g, a), k, reply)
  {
    hide Step;
    StepReplies(g, a);
    var h, news := Patched(g, k, reply), Step(g, a).replies[|g.replies|..];
    StepAdds(g, h, a);
    assert Step(g, a).replies == g.replies + news;
    assert h.replies + news == (g.replies + news)[..k] + [reply] + (g.replies + news)[k..];
  }

  /** Two utilities that differ in their past replies alone do the same and send the same. */
  lemma StepAdds(g: Gui, h: Gui, a: Act)
    requires h == g.(replies := h.replies)
    ensures |g.replies| <= |Step(g, a).replies|
    ensures Step(h, a) == Step(g, a).(replies := h.replies + Step(g, a).replies[|g.replies|..])
  {
    hide Requested;
    SettledAdds(g, h, false);
    SettledAdds(g, h, true);
    SettledAdds(g.(disposed := true), h.(disposed := true), false);
    assert h.replies + g.replies[|g.replies|..] == h.replies;
    if a.Ask? {
      var last := [Reply(a.owner, Refused)];
      assert (g.replies + last)[|g.replies|..] == last;
      if a.request.Some? {
        RequestedAdds(g, h, a.request.value, a.connection, a.owner);
      }
    }
  }

  lemma RequestedAdds(g: Gui, h: Gui, r: Request, connection: nat, owner: nat)
    requires h == g.(replies := h.replies)
    ensures var u := Requested(g, r, connection, owner);
            |g.replies| <= |u.replies| &&
            Requested(h, r, connection, owner) == u.(replies := h.replies + u.replies[|g.replies|..])
  {
    hide Settled;
    SettledAdds(g, h, false);
    var s, last := Settled(g, false), [Reply(owner, Done)];
    var t := Settled(h, false);
    assert t.replies + last == h.replies + (s.replies + last)[|g.replies|..];
    assert h.replies + last == h.replies + (g.replies + last)[|g.replies|..];
  }

  lemma SettledAdds(g: Gui, h: Gui, accepted: bool)
    requires h == g.(replies := h.replies)
    ensures |g.replies| <= |Settled(g, accepted).replies|
    ensures Settled(h, accepted) == Settled(g, accepted).(replies := h.replies + Settled(g, accepted).replies[|g.replies|..])
  {
    if g.pending.None? {
      assert h.replies + g.replies[|g.replies|..] == h.replies;
    } else {
      var last := [Reply(g.pending.value.owner, Decided(accepted))];
      assert (g.replies + last)[|g.replies|..] == last;
    }
  }

  /**
   A malformed request, wherever it comes in a run, gets its refusal and makes no other
   difference, then or ever: not to the confirmation, the generation, what is shown, or
   any other reply.
   */
  lemma {:induction false} MalformedChangesNothing(info: Info, before: seq<Act>, connection: nat, owner: nat, after: seq<Act>)
    ensures |After(info, before).replies| <= |After(info, before + after).replies|
    ensures After(info, before + [Ask(None, connection, owner)] + after) ==
            Patched(After(info, before + after), |After(info, before).replies|, Reply(owner, Refused))
    decreases |after|
  {
    hide Step;
    var bad, k := Ask(None, connection, owner), |After(info, before).replies|;
    if after == [] {
      assert before + after == before && before + [bad] + after == before + [bad];
      assert (before + [bad])[..|before|] == before;
      RefusedStep(After(info, before), connection, owner);
    } else {
      var front, last := after[..|after| - 1], after[|after| - 1];
      MalformedChangesNothing(info, before, connection, owner, front);
      var with, without := before + [bad] + after, before + after;
      assert with[..|with| - 1] == before + [bad] + front && without[..|without| - 1] == before + front;
      StepPatched(After(info, before + front), last, k, Reply(owner, Refused));
    }
  }

  lemma RefusedStep(g: Gui, connection: nat, owner: nat)
    ensures Step(g, Ask(None, connection, owner)) == Patched(g, |g.replies|, Reply(owner, Refused))
  {
    assert g.replies[..|g.replies|] == g.replies && g.replies[|g.replies|..] == [];
    assert g.replies + [Reply(owner, Refused)] + [] == g.replies + [Reply(owner, Refused)];
  }

  /** A decision for another generation, or without a confirmation, changes nothing at all. */
  lemma StaleDecisionChangesNothing(g: Gui, accepted: bool, generation: nat)
    requires generation != g.generation || g.pending.None? || g.disposed
    ensures Step(g, Resolve(accepted, generation)) == g
  {
  }

  // ----- the object of the program -----

  class Controller {
    var info: Info
    var route: Route
    var generation: nat
    var pending: Option<Pending>
    var disposed: bool
    var replies: seq<Reply>

    ghost function View(): Gui
      reads this
    {
      Gui(info, route, generation, pending, disposed, replies)
    }

    constructor (info: Info)
      ensures View() == Started(info)
    {
      this.info, route, generation, pending, disposed, replies := info, Idle(info), 0, None, false, [];
    }

    method Send(owner: nat, answer: Answer)
      modifies this`replies
      ensures View() == Answered(old(View()), owner, answer)
    {
      replies := replies + [Reply(owner, answer)];
    }

    method Settle(accepted: bool)
      modifies this`replies, this`pending
      ensures View() == Settled(old(View()), accepted)
    {
      if pending.Some? {
        var owner := pending.value.owner;
        pending := None;
        Send(owner, Decided(accepted));
      }
    }

    method GoTo(next: Route) returns (title: Effect)
      modifies this`route, this`generation
      ensures View() == Routed(old(View()), next) && title == TitleOf(next)
    {
      route, generation := next, generation + 1;
      title := TitleOf(next);
    }

    method ShowDetails(next: Info) returns (effects: Option<seq<Effect>>)
      modifies this`route, this`generation, this`replies, this`pending
      ensures View() == Step(old(View()), ShowInfo(next))
      ensures effects == if disposed then None else Some([TitleInfo, Show])
    {
      if disposed {
        return None;
      }
      Settle(false);
      var title := GoTo(Details(next));
      effects := Some([title, Show]);
    }

    method CloseWindow() returns (effects: seq<Effect>)
      modifies this`route, this`generation, this`replies, this`pending
      ensures View() == Step(old(View()), Close)
      ensures effects == if disposed then [] else if old(route).Confirm? then [TitleInfo, Hide] else [Hide]
    {
      if disposed {
        return [];
      }
      effects := [];
      if route.Confirm? {
        Settle(false);
        var title := GoTo(Idle(info));
        effects := [title];
      }
      effects := effects + [Hide];
    }

    method Decide(accepted: bool, shown: nat) returns (ok: bool)
      modifies this`replies, this`pending
      ensures View() == Step(old(View()), Resolve(accepted, shown))
      ensures ok == Admits(old(View()), Resolve(accepted, shown))
    {
      if disposed || pending.None? || shown != generation {
        return false;
      }
      Settle(accepted);
      ok := true;
    }

    method Lost(connection: nat) returns (effects: seq<Effect>)
      requires Sound(View())
      modifies this`route, this`generation, this`replies, this`pending
      ensures View() == Step(old(View()), Disconnected(connection))
      ensures effects == if Admits(old(View()), Disconnected(connection)) then [TitleInfo, Hide] else []
    {
      if pending.None? || pending.value.connection != connection {
        return [];
      }
      effects := CloseWindow();
    }

    method DisposeAll()
      modifies this`disposed, this`replies, this`pending
      ensures View() == Step(old(View()), Dispose)
    {
      disposed := true;
      Settle(false);
    }

    /** `request`: nothing is replaced or rejected before validation is through. */
    method Serve(validate: Validator, proc: nat, payload: Octets, connection: nat, owner: nat) returns (effects: seq<Effect>)
      modifies this`route, this`generation, this`replies, this`pending
      ensures View() == Step(old(View()), Ask(validate(proc, payload), connection, owner))
      ensures effects == Shown(old(View()), validate(proc, payload))
    {
      var request := if disposed then None else validate(proc, payload);
      if request.None? {
        Send(owner, Refused);
        return [];
      }
      var title;
      match request.value {
        case ConfirmPairing(model) =>
          Settle(false);
          pending := Some(Pending(connection, owner));
          title := GoTo(Confirm(model));
          return [title, Notify(generation)];
        case ShowCode(model) =>
          Settle(false);
          title := GoTo(Code(model));
          effects := [title];
        case ShowDaemonInfo(details) =>
          var shown := ShowDetails(Info(if details.config == [] then info.config else details.config,
                                        if details.url == [] then info.url else details.url));
          effects := shown.value;
        case Activate =>
          effects := [Show];
        case Completed =>
          if route.Code? {
            title := GoTo(Idle(info));
            effects := [title, Hide];
          } else {
            effects := [];
          }
      }
      Send(owner, Done);
    }
  }
}
