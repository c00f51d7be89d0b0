/** A daemon that never became ready waits for permission to exit. */
module Lease {
  import opened Basics

  const GRANT_NS: nat := 20_000_000_000
  const GRANT_MS: nat := 20_000

  /** What the updater asks for at a tick: nothing readable, nothing, or a drain under a nonce. */
  datatype Request = Unreadable | Absent | Drain(nonce: nat, commit: bool)

  datatype Report = Expired(nonce: nat) | Exiting(nonce: nat) | Granted(nonce: nat, remaining: nat)

  /** One turn of the loop: the request, the clock before and after reporting, and whether reporting worked. */
  datatype Tick = Tick(request: Request, now: nat, later: nat, reported: bool)

  datatype Held = Held(nonce: nat, deadline: nat)

  datatype Wait = Wait(lease: Option<Held>, expired: Option<nat>, exited: bool)

  const FRESH: Wait := Wait(None, None, false)

  /** The lease that still counts once the request has been read. */
  function Current(w: Wait, t: Tick): Option<Held> {
    if t.request.Drain? && w.lease.Some? && w.lease.value.nonce == t.request.nonce then w.lease else None
  }

  /** What is reported at a tick, if anything. */
  function Reported(w: Wait, t: Tick): Option<Report> {
    if !t.request.Drain? then None
    else
      var lease := Current(w, t);
      if lease.Some? then
        if t.now >= lease.value.deadline then Some(Expired(lease.value.nonce))
        else if t.request.commit then Some(Exiting(lease.value.nonce))
        else Some(Granted(lease.value.nonce, (if t.later >= lease.value.deadline then 0 else lease.value.deadline - t.later) / 1_000_000))
      else if !t.request.commit && w.expired != Some(t.request.nonce) then Some(Granted(t.request.nonce, GRANT_MS))
      else None
  }

  function Turn(w: Wait, t: Tick): Wait {
    if w.exited then w
    else if t.request.Absent? then Wait(None, None, false)
    else if t.request.Unreadable? then w.(lease := None)
    else
      var lease := Current(w, t);
      var report := Reported(w, t);
      if report.None? then w.(lease := None)
      else
        match report.value
        case Expired(nonce) => w.(lease := None, expired := Some(nonce))
        case Exiting(_) => w.(lease := None, exited := t.reported)
        case Granted(nonce, _) =>
          if !t.reported then w.(lease := None)
          else if lease.Some? then w
          else w.(lease := Some(Held(nonce, t.later + GRANT_NS)))
  }

  function Waited(ticks: seq<Tick>): Wait {
    if ticks == [] then FRESH else Turn(Waited(ticks[..|ticks| - 1]), ticks[|ticks| - 1])
  }

  /** Everything that is reported, in order; nothing after the exit. */
  function Reports(ticks: seq<Tick>): seq<Report> {
    if ticks == [] then []
    else
      var before, t := Waited(ticks[..|ticks| - 1]), ticks[|ticks| - 1];
      Reports(ticks[..|ticks| - 1]) +
      (if before.exited || Reported(before, t).None? then [] else [Reported(before, t).value])
  }

  /** Tick `i` gave out a lease under `nonce`. */
  ghost predicate GivesOut(ticks: seq<Tick>, i: nat, nonce: nat) {
    && i < |ticks| && ticks[i].request == Drain(nonce, false) && ticks[i].reported
    && !Waited(ticks[..i]).exited && Reported(Waited(ticks[..i]), ticks[i]) == Some(Granted(nonce, GRANT_MS))
  }

  /** At tick `k` the same drain was still wanted, in time, and confirmed again. */
  ghost predicate Confirms(t: Tick, nonce: nat, deadline: nat) {
    t.request == Drain(nonce, false) && t.now < deadline && t.reported
  }

  /** The lease was given out at tick `i` and confirmed at every tick since. */
  ghost predicate Unbroken(ticks: seq<Tick>, i: nat, nonce: nat) {
    && GivesOut(ticks, i, nonce)
    && forall k :: i < k < |ticks| ==> Confirms(ticks[k], nonce, ticks[i].later + GRANT_NS)
  }

  ghost predicate Backed(ticks: seq<Tick>, i: nat, lease: Held) {
    Unbroken(ticks, i, lease.nonce) && lease.deadline == ticks[i].later + GRANT_NS
  }

  lemma {:induction false} LeaseIsBacked(ticks: seq<Tick>) returns (i: nat)
    requires !Waited(ticks).exited && Waited(ticks).lease.Some?
    ensures Backed(ticks, i, Waited(ticks).lease.value)
  {
    var front, t := ticks[..|ticks| - 1], ticks[|ticks| - 1];
    var before := Waited(front);
    if Current(before, t).Some? {
      i := LeaseIsBacked(front);
      assert ticks[..i] == front[..i] && ticks[i] == front[i];
      forall k | i < k < |ticks|
        ensures Confirms(ticks[k], before.lease.value.nonce, ticks[i].later + GRANT_NS)
      {
        if k < |front| {
          assert ticks[k] == front[k];
        }
      }
    } else {
      i := |ticks| - 1;
    }
  }

  /** Tick `j` ends the process under the lease given out at tick `i`. */
  ghost predicate ExitsUnder(ticks: seq<Tick>, i: nat, j: nat, nonce: nat) {
    && i < j < |ticks| && Unbroken(ticks[..j], i, nonce)
    && ticks[j].request == Drain(nonce, true) && ticks[j].now < ticks[i].later + GRANT_NS && ticks[j].reported
    && Reported(Waited(ticks[..j]), ticks[j]) == Some(Exiting(nonce))
  }

  /** The process exits only on a commit under a grant of the same nonce that never lapsed in between. */
  lemma {:induction false} ExitsOnlyUnderCurrentGrant(ticks: seq<Tick>) returns (i: nat, j: nat, nonce: nat)
    requires Waited(ticks).exited
    ensures ExitsUnder(ticks, i, j, nonce)
  {
    var front, t := ticks[..|ticks| - 1], ticks[|ticks| - 1];
    if Waited(front).exited {
      i, j, nonce := ExitsOnlyUnderCurrentGrant(front);
      assert ticks[..j] == front[..j] && ticks[j] == front[j];
    } else {
      i := LeaseIsBacked(front);
      j, nonce := |front|, t.request.nonce;
      assert ticks[..j] == front;
    }
  }

  /** Between these ticks the request never went away, and no other nonce expired. */
  ghost predicate Remembered(ticks: seq<Tick>, i: nat, nonce: nat) {
    forall k :: i < k < |ticks| ==>
      && !ticks[k].request.Absent?
      && (Reported(Waited(ticks[..k]), ticks[k]).Some? && Reported(Waited(ticks[..k]), ticks[k]).value.Expired? ==>
            Reported(Waited(ticks[..k]), ticks[k]).value.nonce == nonce)
  }

  ghost predicate Expires(ticks: seq<Tick>, i: nat, nonce: nat) {
    i < |ticks| && !Waited(ticks[..i]).exited && Reported(Waited(ticks[..i]), ticks[i]) == Some(Expired(nonce))
  }

  lemma {:induction false} ExpiryIsRemembered(ticks: seq<Tick>, i: nat, nonce: nat)
    requires Expires(ticks, i, nonce) && Remembered(ticks, i, nonce)
    ensures Waited(ticks).expired == Some(nonce)
    ensures Waited(ticks).lease.Some? ==> Waited(ticks).lease.value.nonce != nonce
  {
    var front, t := ticks[..|ticks| - 1], ticks[|ticks| - 1];
    assert ticks[..|front|] == front;
    if i < |front| {
      assert ticks[..i] == front[..i] && ticks[i] == front[i];
      forall k | i < k < |front|
        ensures ticks[..k] == front[..k] && ticks[k] == front[k]
      {
      }
      RememberedBefore(ticks, front, i, nonce);
      ExpiryIsRemembered(front, i, nonce);
      assert !ticks[|front|].request.Absent?;
    }
  }

  lemma RememberedBefore(ticks: seq<Tick>, front: seq<Tick>, i: nat, nonce: nat)
    requires Remembered(ticks, i, nonce) && |front| <= |ticks| && front == ticks[..|front|]
    ensures Remembered(front, i, nonce)
  {
    forall k | i < k < |front|
      ensures front[..k] == ticks[..k] && front[k] == ticks[k]
    {
    }
    hide Waited, Reported;
  }

  /** An expired drain is not granted again, nor exited under, while its request stays. */
  lemma ExpiredIsNotRegranted(ticks: seq<Tick>, i: nat, nonce: nat, next: Tick)
    requires Expires(ticks, i, nonce) && Remembered(ticks, i, nonce)
    ensures next.request.Drain? && next.request.nonce == nonce ==> Reported(Waited(ticks), next).None?
  {
    ExpiryIsRemembered(ticks, i, nonce);
  }

  /** The loop, until it returns or the ticks run out. */
  method WaitUnstartedDrain(ticks: seq<Tick>) returns (exited: bool, reports: seq<Report>)
    ensures exited == Waited(ticks).exited && reports == Reports(ticks)
  {
    var lease, expired := None, None;
    reports := [];
    for n := 0 to |ticks|
      invariant Waited(ticks[..n]) == Wait(lease, expired, false)
      invariant reports == Reports(ticks[..n])
    {
      var t := ticks[n];
      assert ticks[..n + 1][..n] == ticks[..n];
      if t.request.Absent? {
        lease, expired := None, None;
        continue;
      }
      if t.request.Unreadable? {
        lease := None;
        continue;
      }
      if lease.Some? && lease.value.nonce != t.request.nonce {
        lease := None;
      }
      if lease.Some? {
        var Held(nonce, deadline) := lease.value;
        if t.now >= deadline {
          reports := reports + [Expired(nonce)];
          expired, lease := Some(nonce), None;
        } else if t.request.commit {
          reports := reports + [Exiting(nonce)];
          if t.reported {
            exited := true;
            StaysExited(ticks, n + 1);
            return;
          }
          lease := None;
        } else {
          reports := reports + [Granted(nonce, (if t.later >= deadline then 0 else deadline - t.later) / 1_000_000)];
          if !t.reported {
            lease := None;
          }
        }
      } else if !t.request.commit && expired != Some(t.request.nonce) {
        reports := reports + [Granted(t.request.nonce, GRANT_MS)];
        if t.reported {
          lease := Some(Held(t.request.nonce, t.later + GRANT_NS));
        }
      }
    }
    assert ticks[..|ticks|] == ticks;
    exited := false;
  }

  lemma {:induction false} StaysExited(ticks: seq<Tick>, n: nat)
    requires n <= |ticks| && Waited(ticks[..n]).exited
    ensures Waited(ticks).exited && Reports(ticks) == Reports(ticks[..n])
  {
    hide Reported;
    if n == |ticks| {
      assert ticks[..n] == ticks;
    } else {
      var front := ticks[..|ticks| - 1];
      assert front[..n] == ticks[..n];
      StaysExited(front, n);
    }
  }
}
