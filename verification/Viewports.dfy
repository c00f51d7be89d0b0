/** Which viewport tables an attachment may configure. */
module Viewports {
  import opened Basics
  import opened DesktopModel

  function TotalRate(requested: seq<Viewport>, n: nat): nat
    requires n <= |requested|
  {
    if n == 0 then 0 else TotalRate(requested, n - 1) + requested[n - 1].bitrate
  }

  /** A viewport a client may ask for. */
  predicate Sized(v: Viewport) {
    && 1 <= |v.id| <= 128 && |v.display| <= 128
    && 1 <= v.width <= 8192 && 1 <= v.height <= 8192 && 1 <= v.fps <= 120
    && v.bitrate > 0 && v.cropWidth > 0 && v.cropHeight > 0
  }

  ghost predicate Admissible(requested: seq<Viewport>, n: nat)
    requires n <= |requested|
  {
    && (forall i :: 0 <= i < n ==> Sized(requested[i]))
    && (forall i, j :: 0 <= i < j < n ==> requested[i].id != requested[j].id)
    && TotalRate(requested, n) <= U64_MAX
  }

  /** The table holds exactly the requested viewports under their ids. */
  ghost predicate Tabulates(viewports: map<Octets, Viewport>, requested: seq<Viewport>, n: nat)
    requires n <= |requested|
  {
    && (forall i :: 0 <= i < n ==> requested[i].id in viewports && viewports[requested[i].id] == requested[i])
    && (forall id :: id in viewports ==> exists i :: 0 <= i < n && requested[i].id == id)
  }

  lemma {:induction false} CollectIsExact(requested: seq<Viewport>, n: nat)
    requires n <= |requested|
    ensures Collect(requested, n).Collected? <==> Admissible(requested, n)
    ensures Collect(requested, n).Collected? ==>
              Tabulates(Collect(requested, n).viewports, requested, n) && Collect(requested, n).total == TotalRate(requested, n)
  {
    hide ViewportInBounds, Sized, Admissible, Tabulates;
    if n == 0 {
      NothingCollected(requested);
    } else {
      CollectIsExact(requested, n - 1);
      var c, v := Collect(requested, n - 1), requested[n - 1];
      AdmissibleStep(requested, n);
      SizedIff(v);
      if c.Collected? {
        TabulatedIds(c.viewports, requested, n - 1, v.id);
        if v.id !in c.viewports {
          TabulatesStep(c.viewports, requested, n);
        }
      }
    }
  }

  lemma NothingCollected(requested: seq<Viewport>)
    ensures Admissible(requested, 0) && Tabulates(map[], requested, 0)
  {
  }

  /** Whether one of the first `n` requested viewports has this id. */
  ghost predicate Requested(requested: seq<Viewport>, n: nat, id: Octets)
    requires n <= |requested|
  {
    exists i :: 0 <= i < n && requested[i].id == id
  }

  lemma AdmissibleStep(requested: seq<Viewport>, n: nat)
    requires 0 < n <= |requested|
    ensures Admissible(requested, n) <==>
            var v := requested[n - 1];
            && Admissible(requested, n - 1) && Sized(v)
            && TotalRate(requested, n) <= U64_MAX && !Requested(requested, n - 1, v.id)
  {
    hide Sized;
  }

  lemma SizedIff(v: Viewport)
    ensures ViewportInBounds(v) <==> Sized(v)
  {
  }

  lemma TabulatedIds(viewports: map<Octets, Viewport>, requested: seq<Viewport>, n: nat, id: Octets)
    requires n <= |requested| && Tabulates(viewports, requested, n)
    ensures id in viewports <==> Requested(requested, n, id)
  {
  }

  lemma TabulatesStep(viewports: map<Octets, Viewport>, requested: seq<Viewport>, n: nat)
    requires 0 < n <= |requested| && Tabulates(viewports, requested, n - 1) && requested[n - 1].id !in viewports
    ensures Tabulates(viewports[requested[n - 1].id := requested[n - 1]], requested, n)
  {
    var next := viewports[requested[n - 1].id := requested[n - 1]];
    forall id | id in next
      ensures exists i :: 0 <= i < n && requested[i].id == id
    {
      if id in viewports {
        var i :| 0 <= i < n - 1 && requested[i].id == id;
      } else {
        assert requested[n - 1].id == id;
      }
    }
  }

  /** The first viewport that spoils a request decides why it is refused. */
  ghost predicate SpoiledAt(requested: seq<Viewport>, m: nat, error: Error) {
    && m < |requested| && Admissible(requested, m)
    && (if !Sized(requested[m]) then error == Invalid
        else if TotalRate(requested, m + 1) > U64_MAX then error == Limit
        else error == Invalid && Requested(requested, m, requested[m].id))
  }

  lemma {:induction false} RefusedFor(requested: seq<Viewport>, n: nat) returns (m: nat)
    requires n <= |requested| && Collect(requested, n).Rejected?
    ensures m < n && SpoiledAt(requested, m, Collect(requested, n).error)
  {
    hide ViewportInBounds, Sized, Admissible, Tabulates, Requested;
    var c, v := Collect(requested, n - 1), requested[n - 1];
    if c.Rejected? {
      m := RefusedFor(requested, n - 1);
    } else {
      m := n - 1;
      CollectIsExact(requested, n - 1);
      SizedIff(v);
      TabulatedIds(c.viewports, requested, n - 1, v.id);
    }
  }

  /** Why a configuration is refused, for a caller that is authorized. */
  lemma ConfigureRefusals(s: State, valid: Credentials, connection: nat, id: nat, now: nat,
                          layout: nat, requested: seq<Viewport>, budget: nat, before: set<nat>)
    requires !Authorize(s, valid, connection, id, now, before).result.Err?
    ensures var t := Authorize(s, valid, connection, id, now, before).state;
            var r := Configure(s, valid, connection, id, now, layout, requested, budget, before).result;
            && (r == Err(Stale) <==> layout != t.layoutEpoch)
            && (layout == t.layoutEpoch && (|requested| > 8 || budget == 0 || budget > 100_000_000) ==> r == Err(Limit))
            && (layout == t.layoutEpoch && |requested| <= 8 && 0 < budget <= 100_000_000 ==>
                  && (Admissible(requested, |requested|) && TotalRate(requested, |requested|) > budget ==> r == Err(Limit))
                  && (!Admissible(requested, |requested|) ==> r.Err? && exists m: nat :: SpoiledAt(requested, m, r.error)))
  {
    hide Authorize, Collect, Admissible, Tabulates, SpoiledAt;
    CollectIsExact(requested, |requested|);
    if Collect(requested, |requested|).Rejected? {
      var m := RefusedFor(requested, |requested|);
      NeverStale(requested, m, Collect(requested, |requested|).error);
    }
  }

  lemma NeverStale(requested: seq<Viewport>, m: nat, error: Error)
    requires SpoiledAt(requested, m, error)
    ensures error == Invalid || error == Limit
  {
  }

  /** A configuration is accepted exactly if it is authorized, current, within the limits and well formed. */
  lemma ConfigureIff(s: State, valid: Credentials, connection: nat, id: nat, now: nat,
                     layout: nat, requested: seq<Viewport>, budget: nat, before: set<nat>)
    ensures var d := Configure(s, valid, connection, id, now, layout, requested, budget, before);
            && (d.result == Ok <==>
                  && !Authorize(s, valid, connection, id, now, before).result.Err?
                  && layout == Authorize(s, valid, connection, id, now, before).state.layoutEpoch
                  && |requested| <= 8 && 0 < budget <= 100_000_000
                  && Admissible(requested, |requested|) && TotalRate(requested, |requested|) <= budget)
            && (d.result == Ok ==> id in d.state.attachments && Tabulates(d.state.attachments[id].viewports, requested, |requested|))
            && (d.result != Ok ==> d.state == Authorize(s, valid, connection, id, now, before).state)
  {
    hide Authorize, Collect, Admissible, Tabulates;
    CollectIsExact(requested, |requested|);
  }
}
