/** How every confirmation ends: the user's decision reaches the one who asked, and nothing else passes for it. */
module PairingDecisions {
  import opened Basics
  import opened PairingModel
  import opened Pairing

  /** Call `i` puts up a confirmation: a valid request to a utility that is not disposed of. */
  ghost predicate PutsUp(info: Info, acts: seq<Act>, i: nat) {
    && i < |acts| && acts[i].Ask? && acts[i].request.Some? && acts[i].request.value.ConfirmPairing?
    && !After(info, acts[..i]).disposed
  }

  /** The generation under which it is displayed. */
  ghost function ShownAs(info: Info, acts: seq<Act>, i: nat): nat
    requires i < |acts|
  {
    After(info, acts[..i + 1]).generation
  }

  /** The calls that end a confirmation of this connection and generation, one way or the other. */
  predicate Ends(a: Act, connection: nat, generation: nat) {
    match a
    case Resolve(_, g) => g == generation
    case Disconnected(c) => c == connection
    case Ask(request, _, _) => request.Some? && !request.value.Activate? && !request.value.Completed?
    case _ => true
  }

  ghost predicate EndedAt(info: Info, acts: seq<Act>, i: nat, k: nat) {
    i < k < |acts| && Ends(acts[k], if acts[i].Ask? then acts[i].connection else 0, ShownAs(info, acts, i))
  }

  // ----- one call -----

  /** A confirmation is up: as after `PutsUp`. */
  ghost predicate Up(g: Gui, connection: nat, owner: nat, generation: nat, model: Octets) {
    g.pending == Some(Pending(connection, owner)) && g.generation == generation && g.route == Confirm(model) && !g.disposed
  }

  lemma PutUpIsUp(g: Gui, model: Octets, connection: nat, owner: nat)
    requires !g.disposed
    ensures var t := Step(g, Ask(Some(ConfirmPairing(model)), connection, owner));
            Up(t, connection, owner, g.generation + 1, model)
  {
  }

  /** While it is up, a call either ends it with the answer the call stands for, or leaves it up. */
  lemma StepUp(g: Gui, a: Act, connection: nat, owner: nat, generation: nat, model: Octets)
    requires Up(g, connection, owner, generation, model)
    ensures !Ends(a, connection, generation) ==> Up(Step(g, a), connection, owner, generation, model)
    ensures Ends(a, connection, generation) ==>
              && Gone(Step(g, a), generation)
              && |Step(g, a).replies| > |g.replies|
              && Step(g, a).replies[..|g.replies| + 1] == g.replies + [Reply(owner, Decided(a == Resolve(true, generation)))]
  {
  }

  /** It is over for good: a later one would have a later generation. */
  ghost predicate Gone(g: Gui, generation: nat) {
    generation < g.generation || (generation == g.generation && g.pending.None?)
  }

  lemma StepGone(g: Gui, a: Act, generation: nat)
    requires Gone(g, generation)
    ensures Gone(Step(g, a), generation)
  {
  }

  // ----- runs -----

  lemma {:induction false} UpUntilEnded(info: Info, acts: seq<Act>, i: nat, n: nat)
    requires PutsUp(info, acts, i) && i < n <= |acts| && forall k :: i < k < n ==> !EndedAt(info, acts, i, k)
    ensures Up(After(info, acts[..n]), acts[i].connection, acts[i].owner, ShownAs(info, acts, i), acts[i].request.value.model)
  {
    hide Step, Ends, Up;
    var g := After(info, acts[..n - 1]);
    assert acts[..n][..n - 1] == acts[..n - 1] && acts[..n][n - 1] == acts[n - 1];
    if n == i + 1 {
      PutUpIsUp(g, acts[i].request.value.model, acts[i].connection, acts[i].owner);
      UpGeneration(After(info, acts[..n]), acts[i].connection, acts[i].owner, g.generation + 1, acts[i].request.value.model);
    } else {
      UpUntilEnded(info, acts, i, n - 1);
      assert !EndedAt(info, acts, i, n - 1);
      StepUp(g, acts[n - 1], acts[i].connection, acts[i].owner, ShownAs(info, acts, i), acts[i].request.value.model);
    }
  }

  lemma UpGeneration(g: Gui, connection: nat, owner: nat, generation: nat, model: Octets)
    requires Up(g, connection, owner, generation, model)
    ensures g.generation == generation
  {
  }

  /** The first call that ends a confirmation answers it: accepted if it is the user's acceptance, else not. */
  lemma FirstEndAnswers(info: Info, acts: seq<Act>, i: nat, k: nat)
    requires PutsUp(info, acts, i) && EndedAt(info, acts, i, k) && forall m :: i < m < k ==> !EndedAt(info, acts, i, m)
    ensures var before, after := After(info, acts[..k]).replies, After(info, acts[..k + 1]).replies;
            && |before| < |after|
            && after[..|before| + 1] == before + [Reply(acts[i].owner, Decided(acts[k] == Resolve(true, ShownAs(info, acts, i))))]
    ensures Gone(After(info, acts[..k + 1]), ShownAs(info, acts, i))
  {
    hide Step, Ends, Up, Gone;
    UpUntilEnded(info, acts, i, k);
    assert acts[..k + 1][..k] == acts[..k] && acts[..k + 1][k] == acts[k];
    StepUp(After(info, acts[..k]), acts[k], acts[i].connection, acts[i].owner, ShownAs(info, acts, i), acts[i].request.value.model);
  }

  /** A decision for the confirmation on display is the one reply it adds, and settles it. */
  lemma DecisionReaches(info: Info, acts: seq<Act>, shown: nat, accepted: bool)
    requires Stands(info, acts, shown)
    ensures var g := After(info, acts);
            var t := After(info, acts + [Resolve(accepted, ShownAs(info, acts, shown))]);
            t == g.(pending := None, replies := g.replies + [Reply(acts[shown].owner, Decided(accepted))])
  {
    var all := acts + [Resolve(accepted, ShownAs(info, acts, shown))];
    assert all[..|acts|] == acts;
    RequestsAreConserved(info, acts);
  }

  /** It stands exactly until the first call that ends it. */
  lemma StandsIff(info: Info, acts: seq<Act>, i: nat)
    requires PutsUp(info, acts, i)
    ensures Stands(info, acts, i) <==> forall k :: i < k < |acts| ==> !EndedAt(info, acts, i, k)
  {
    hide Step, Ends, EndedAt;
    assert acts[..|acts|] == acts;
    UpUntilEndedFirst(info, acts, i);
    if k :| i < k < |acts| && EndedAt(info, acts, i, k) {
      StaysGone(info, acts, i, k, |acts|);
    } else {
      UpUntilEnded(info, acts, i, |acts|);
    }
  }

  lemma UpUntilEndedFirst(info: Info, acts: seq<Act>, i: nat)
    requires PutsUp(info, acts, i)
    ensures Up(After(info, acts[..i + 1]), acts[i].connection, acts[i].owner, ShownAs(info, acts, i), acts[i].request.value.model)
  {
    hide Step, Ends, Up;
    UpUntilEnded(info, acts, i, i + 1);
  }

  /** The earliest ending call up to `k`. */
  lemma {:induction false} FirstEnd(info: Info, acts: seq<Act>, i: nat, k: nat) returns (first: nat)
    requires PutsUp(info, acts, i) && EndedAt(info, acts, i, k)
    ensures first <= k && EndedAt(info, acts, i, first) && forall m :: i < m < first ==> !EndedAt(info, acts, i, m)
    decreases k
  {
    hide EndedAt, PutsUp;
    if m: nat :| m < k && EndedAt(info, acts, i, m) {
      first := FirstEnd(info, acts, i, m);
    } else {
      first := k;
    }
  }

  lemma {:induction false} StaysGone(info: Info, acts: seq<Act>, i: nat, k: nat, n: nat)
    requires PutsUp(info, acts, i) && EndedAt(info, acts, i, k) && k < n <= |acts|
    ensures Gone(After(info, acts[..n]), ShownAs(info, acts, i))
    decreases n
  {
    hide Step, Ends, Up, Gone;
    var first := FirstEnd(info, acts, i, k);
    if n == first + 1 {
      FirstEndAnswers(info, acts, i, first);
    } else {
      StaysGone(info, acts, i, first, n - 1);
      assert acts[..n][..n - 1] == acts[..n - 1] && acts[..n][n - 1] == acts[n - 1];
      StepGone(After(info, acts[..n - 1]), acts[n - 1], ShownAs(info, acts, i));
    }
  }

  // ----- replies stay -----

  lemma {:induction false} RepliesStay(info: Info, acts: seq<Act>, n: nat)
    requires n <= |acts|
    ensures |After(info, acts[..n]).replies| <= |After(info, acts).replies|
    ensures After(info, acts).replies[..|After(info, acts[..n]).replies|] == After(info, acts[..n]).replies
    decreases |acts|
  {
    hide Step;
    if n == |acts| {
      assert acts[..n] == acts;
    } else {
      var front := acts[..|acts| - 1];
      assert front[..n] == acts[..n];
      RepliesStay(info, front, n);
      StepReplies(After(info, front), acts[|acts| - 1]);
    }
  }

  /** The user accepted while the confirmation was up: the first call that ended it was the acceptance. */
  ghost predicate UserAccepted(info: Info, acts: seq<Act>, i: nat, k: nat) {
    && EndedAt(info, acts, i, k) && acts[k] == Resolve(true, ShownAs(info, acts, i))
    && forall m :: i < m < k ==> !EndedAt(info, acts, i, m)
  }

  /** Something else ended it first: closing, its connection, disposal, another request, or the user's refusal. */
  ghost predicate EndedOtherwise(info: Info, acts: seq<Act>, i: nat, k: nat) {
    && EndedAt(info, acts, i, k) && acts[k] != Resolve(true, ShownAs(info, acts, i))
    && forall m :: i < m < k ==> !EndedAt(info, acts, i, m)
  }

  /**
   In every run in which its channel was not used for another request, a confirmation is
   answered as accepted exactly if the user accepted it while it was up, and as rejected
   exactly if something else ended it first.
   */
  lemma AcceptedIff(info: Info, acts: seq<Act>, i: nat)
    requires PutsUp(info, acts, i)
    requires forall j :: 0 <= j < |acts| && j != i && acts[j].Ask? ==> acts[j].owner != acts[i].owner
    ensures Reply(acts[i].owner, Decided(true)) in After(info, acts).replies <==> exists k: nat :: UserAccepted(info, acts, i, k)
    ensures Reply(acts[i].owner, Decided(false)) in After(info, acts).replies <==> exists k: nat :: EndedOtherwise(info, acts, i, k)
  {
    hide Step, After, Ends, EndedAt;
    if k: nat :| UserAccepted(info, acts, i, k) {
      AnswerIsThere(info, acts, i, k);
    }
    if k: nat :| EndedOtherwise(info, acts, i, k) {
      AnswerIsThere(info, acts, i, k);
    }
    if Reply(acts[i].owner, Decided(true)) in After(info, acts).replies {
      AcceptanceWasGiven(info, acts, i);
    }
    if Reply(acts[i].owner, Decided(false)) in After(info, acts).replies {
      RejectionHadCause(info, acts, i);
    }
  }

  lemma AnswerIsThere(info: Info, acts: seq<Act>, i: nat, k: nat)
    requires PutsUp(info, acts, i) && EndedAt(info, acts, i, k) && forall m :: i < m < k ==> !EndedAt(info, acts, i, m)
    ensures Reply(acts[i].owner, Decided(acts[k] == Resolve(true, ShownAs(info, acts, i)))) in After(info, acts).replies
  {
    hide Step, After, Ends;
    FirstEndAnswers(info, acts, i, k);
    RepliesStay(info, acts, k + 1);
    var before, after, all := After(info, acts[..k]).replies, After(info, acts[..k + 1]).replies, After(info, acts).replies;
    var reply := Reply(acts[i].owner, Decided(acts[k] == Resolve(true, ShownAs(info, acts, i))));
    assert after[..|before| + 1][|before|] == reply;
    assert all[|before|] == all[..|after|][|before|] == after[|before|];
  }

  lemma AcceptanceWasGiven(info: Info, acts: seq<Act>, i: nat)
    requires PutsUp(info, acts, i)
    requires forall j :: 0 <= j < |acts| && j != i && acts[j].Ask? ==> acts[j].owner != acts[i].owner
    requires Reply(acts[i].owner, Decided(true)) in After(info, acts).replies
    ensures exists k: nat :: UserAccepted(info, acts, i, k)
  {
    hide Step, After, Ends;
    var all := After(info, acts).replies;
    var j :| 0 <= j < |all| && all[j] == Reply(acts[i].owner, Decided(true));
    var shown, at := AcceptedByItsGeneration(info, acts, j);
    assert acts[shown].Ask? && acts[shown].owner == acts[i].owner by {
      StandsFacts(info, acts[..at], shown);
    }
    assert shown == i;
    assert acts[..at][..i] == acts[..i] && acts[..at][..i + 1] == acts[..i + 1];
    StandsIff(info, acts[..at], i);
    EndsSame(info, acts, i, at);
    assert Ends(acts[at], acts[i].connection, ShownAs(info, acts, i)) by { EndsOwn(acts[i].connection, ShownAs(info, acts, i)); }
    assert UserAccepted(info, acts, i, at);
  }

  lemma RejectionHadCause(info: Info, acts: seq<Act>, i: nat)
    requires PutsUp(info, acts, i)
    requires forall j :: 0 <= j < |acts| && j != i && acts[j].Ask? ==> acts[j].owner != acts[i].owner
    requires Reply(acts[i].owner, Decided(false)) in After(info, acts).replies
    ensures exists k: nat :: EndedOtherwise(info, acts, i, k)
  {
    hide Step, After, Ends, EndedAt, Owners, Askers;
    var g, owner := After(info, acts), acts[i].owner;
    RequestsAreConserved(info, acts);
    AskedOnce(acts, i);
    var j :| 0 <= j < |g.replies| && g.replies[j] == Reply(owner, Decided(false));
    if k: nat :| i < k < |acts| && EndedAt(info, acts, i, k) {
      var first := FirstEnd(info, acts, i, k);
      if acts[first] == Resolve(true, ShownAs(info, acts, i)) {
        AnswerIsThere(info, acts, i, first);
        var m :| 0 <= m < |g.replies| && g.replies[m] == Reply(owner, Decided(true));
        TwoReplies(g.replies, if j < m then j else m, if j < m then m else j);
      } else {
        assert EndedOtherwise(info, acts, i, first);
      }
    } else {
      UpUntilEnded(info, acts, i, |acts|);
      assert acts[..|acts|] == acts;
      OneReply(g.replies, j);
    }
  }

  lemma {:induction false} OneReply(replies: seq<Reply>, j: nat)
    requires j < |replies|
    ensures Owners(replies)[replies[j].owner] >= 1
  {
    if j < |replies| - 1 {
      OneReply(replies[..|replies| - 1], j);
    }
  }

  lemma {:induction false} TwoReplies(replies: seq<Reply>, j: nat, k: nat)
    requires j < k < |replies| && replies[j].owner == replies[k].owner
    ensures Owners(replies)[replies[j].owner] >= 2
  {
    var front := replies[..|replies| - 1];
    if k < |replies| - 1 {
      TwoReplies(front, j, k);
    } else {
      OneReply(front, j);
    }
  }

  lemma {:induction false} AskedOnce(acts: seq<Act>, i: nat)
    requires i < |acts| && acts[i].Ask?
    requires forall j :: 0 <= j < |acts| && j != i && acts[j].Ask? ==> acts[j].owner != acts[i].owner
    ensures Askers(acts)[acts[i].owner] == 1
  {
    var front := acts[..|acts| - 1];
    if i < |front| {
      AskedOnce(front, i);
    } else {
      AskedNever(front, acts[i].owner);
    }
  }

  lemma {:induction false} AskedNever(acts: seq<Act>, owner: nat)
    requires forall j :: 0 <= j < |acts| && acts[j].Ask? ==> acts[j].owner != owner
    ensures Askers(acts)[owner] == 0
  {
    if acts != [] {
      AskedNever(acts[..|acts| - 1], owner);
    }
  }

  lemma EndsOwn(connection: nat, generation: nat)
    ensures Ends(Resolve(true, generation), connection, generation)
  {
  }

  lemma EndsSame(info: Info, acts: seq<Act>, i: nat, at: nat)
    requires i < at <= |acts|
    ensures forall m :: i < m < at ==> (EndedAt(info, acts[..at], i, m) <==> EndedAt(info, acts, i, m))
  {
    hide Ends, After;
    assert acts[..at][..i + 1] == acts[..i + 1];
  }

  // ----- the other requests -----

  /** What the other requests do: they are done at once, show what they ask for, and reject a confirmation they replace. */
  lemma OtherRequestsAreDone(g: Gui, r: Request, connection: nat, owner: nat)
    requires !g.disposed && !r.ConfirmPairing? && Sound(g)
    ensures var t := Step(g, Ask(Some(r), connection, owner));
            && |g.replies| < |t.replies| && t.replies[|t.replies| - 1] == Reply(owner, Done)
            && (r.ShowCode? ==> t.route == Code(r.model) && t.generation == g.generation + 1 && t.pending.None?)
            && (r.ShowDaemonInfo? ==>
                  && t.route.Details? && t.generation == g.generation + 1 && t.pending.None?
                  && t.route.info.config == (if |r.info.config| == 0 then g.info.config else r.info.config)
                  && t.route.info.url == (if |r.info.url| == 0 then g.info.url else r.info.url))
            && (r.Activate? ==> t == g.(replies := t.replies))
            && (r.Completed? && g.route.Code? ==> t.route == Idle(g.info) && t.generation == g.generation + 1 && t.pending == g.pending)
            && (r.Completed? && !g.route.Code? ==> t == g.(replies := t.replies))
            && t.info == g.info && !t.disposed
  {
  }

  /** What the user sees of a request: a code only retitles the window, details and activation raise it, completion hides it. */
  lemma ShownIs(g: Gui, r: Request)
    requires !g.disposed
    ensures var e := Shown(g, Some(r));
            && (Show in e <==> r.ShowDaemonInfo? || r.Activate?)
            && (Hide in e <==> r.Completed? && g.route.Code?)
            && (TitleCode in e <==> r.ShowCode?) && (TitleConfirm in e <==> r.ConfirmPairing?)
            && (TitleInfo in e <==> r.ShowDaemonInfo? || (r.Completed? && g.route.Code?))
            && |e| == (if r.ConfirmPairing? || r.ShowDaemonInfo? then 2 else if r.ShowCode? || r.Activate? then 1
                       else if g.route.Code? then 2 else 0)
            && (|e| == 2 ==> e[0] == TitleConfirm || e[0] == TitleInfo)
    ensures Shown(g, None) == []
  {
  }

  /** Showing the daemon's details or closing a confirmation goes back to information; closing anything else only hides. */
  lemma WindowActs(g: Gui, info: Info)
    requires !g.disposed
    ensures var t := Step(g, ShowInfo(info)); t.route == Details(info) && t.generation == g.generation + 1 && t.pending.None?
    ensures var t := Step(g, Close);
            if g.route.Confirm? then t.route == Idle(g.info) && t.generation == g.generation + 1 && t.pending.None? else t == g
  {
  }
}
