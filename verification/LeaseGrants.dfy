/** What a waiting daemon grants: a first request is granted, a current grant is kept, and a commit under it is obeyed. */
module LeaseGrants {
  import opened Basics
  import opened Lease

  /** A drain that is not being granted already, nor remembered as expired, is granted for twenty seconds. */
  lemma FirstRequestIsGranted(w: Wait, t: Tick, nonce: nat)
    requires !w.exited && t.request == Drain(nonce, false) && w.expired != Some(nonce)
    requires w.lease.None? || w.lease.value.nonce != nonce
    ensures Reported(w, t) == Some(Granted(nonce, 20_000))
    ensures Turn(w, t) == w.(lease := if t.reported then Some(Held(nonce, t.later + 20_000_000_000)) else None)
  {
  }

  /** A commit without a current grant of its own nonce is not answered and loses whatever was held. */
  lemma CommitNeedsGrant(w: Wait, t: Tick, nonce: nat)
    requires !w.exited && t.request == Drain(nonce, true) && (w.lease.None? || w.lease.value.nonce != nonce)
    ensures Reported(w, t).None? && Turn(w, t) == w.(lease := None)
  {
  }

  /** Under a current grant: the time that is left is reported, a commit ends the process, and the deadline ends the grant. */
  lemma GrantedTurn(w: Wait, t: Tick)
    requires !w.exited && w.lease.Some? && t.request.Drain? && t.request.nonce == w.lease.value.nonce
    ensures var (nonce, deadline) := (w.lease.value.nonce, w.lease.value.deadline);
            && (deadline <= t.now ==>
                  Reported(w, t) == Some(Expired(nonce)) && Turn(w, t) == Wait(None, Some(nonce), false))
            && (t.now < deadline && t.request.commit ==>
                  Reported(w, t) == Some(Exiting(nonce)) && Turn(w, t) == Wait(None, w.expired, t.reported))
            && (t.now < deadline && !t.request.commit ==>
                  && Reported(w, t).Some? && Reported(w, t).value.Granted? && Reported(w, t).value.nonce == nonce
                  && 1_000_000 * Reported(w, t).value.remaining <= Max(deadline - t.later, 0) < 1_000_000 * (Reported(w, t).value.remaining + 1)
                  && Turn(w, t) == if t.reported then w else w.(lease := None))
  {
  }

  /** A request that goes away clears what was held and what had expired; one that cannot be read only what was held. */
  lemma AbsentTurn(w: Wait, t: Tick)
    requires !w.exited
    ensures t.request.Absent? ==> Turn(w, t) == FRESH && Reported(w, t).None?
    ensures t.request.Unreadable? ==> Turn(w, t) == w.(lease := None) && Reported(w, t).None?
  {
  }

  /** A grant that was confirmed at every tick is held, with the deadline of its beginning. */
  lemma {:induction false} UnbrokenIsHeld(ticks: seq<Tick>, i: nat, nonce: nat)
    requires Unbroken(ticks, i, nonce) && (Waited(ticks[..i]).lease.Some? ==> Waited(ticks[..i]).lease.value.nonce != nonce)
    ensures !Waited(ticks).exited && Waited(ticks).lease == Some(Held(nonce, ticks[i].later + 20_000_000_000))
    decreases |ticks|
  {
    hide Reported, Turn;
    var front, t := ticks[..|ticks| - 1], ticks[|ticks| - 1];
    if i == |front| {
      NotRemembered(Waited(front), t, nonce);
      FirstRequestIsGranted(Waited(front), t, nonce);
    } else {
      assert front[..i] == ticks[..i] && front[i] == ticks[i];
      assert forall k :: i < k < |front| ==> front[k] == ticks[k];
      UnbrokenIsHeld(front, i, nonce);
      assert Confirms(ticks[|front|], nonce, ticks[i].later + GRANT_NS);
      GrantedTurn(Waited(front), t);
    }
  }

  lemma NotRemembered(w: Wait, t: Tick, nonce: nat)
    requires t.request == Drain(nonce, false) && Reported(w, t) == Some(Granted(nonce, GRANT_MS))
    requires w.lease.Some? ==> w.lease.value.nonce != nonce
    ensures w.expired != Some(nonce)
  {
  }

  /** The converse of `ExitsOnlyUnderCurrentGrant`: a commit under such a grant, in time and reported, ends the process. */
  lemma CommitExits(ticks: seq<Tick>, i: nat, nonce: nat, t: Tick)
    requires Unbroken(ticks, i, nonce) && (Waited(ticks[..i]).lease.Some? ==> Waited(ticks[..i]).lease.value.nonce != nonce)
    requires t.request == Drain(nonce, true) && t.now < ticks[i].later + 20_000_000_000 && t.reported
    ensures Waited(ticks + [t]).exited
  {
    hide Reported, Turn;
    UnbrokenIsHeld(ticks, i, nonce);
    assert (ticks + [t])[..|ticks|] == ticks;
    GrantedTurn(Waited(ticks), t);
  }
}
