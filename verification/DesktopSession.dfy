/** An ordinary session, step by step: the runs the safety theorems speak of do deliver input. */
module DesktopSession {
  import opened Basics
  import opened Maintenance
  import opened DesktopModel
  import opened DesktopSafety

  /** Attach, take control, press a key and let it go. */
  function Session(valid: Credentials, client: Octets): seq<Op> {
    [DoAttach(valid, 7, client, Physical, 0, {}),
     DoSetControl(valid, 7, 1, 0, Acquire, {}),
     DoInput(valid, 7, 0, Frame(1, 2, 1, 1, PhysicalKey(4, true, false)), {}),
     DoInput(valid, 7, 0, Frame(1, 2, 2, 1, PhysicalKey(4, false, false)), {})]
  }

  /** The state with the one attachment after `sequence` events, with `keys` down. */
  function With(client: Octets, sequence: nat, keys: set<nat>): State {
    Init([]).(gate := Gate(false, 1), nextId := 1, holder := Some(1), epoch := 2, keys := keys,
              os := Os(set k | k in keys :: Key(k), []),
              attachments := map[1 := Attachment(7, Physical, client, LEASE_MS, sequence, map[])])
  }

  function Waiting(client: Octets): State {
    With(client, 0, {}).(holder := None, epoch := 1)
  }

  lemma Attaches(valid: Credentials, client: Octets)
    requires valid(client, 0)
    ensures Apply(Init([]), Session(valid, client)[0]) == Step(Waiting(client), Attached(1), None)
  {
    assert Dead(Init([]), valid, 0) == {};
    assert (set k: nat | k in {} :: Key(k)) == {};
  }

  lemma NobodyExpires(valid: Credentials, client: Octets, s: State)
    requires valid(client, 0) && s.attachments.Keys == {1} && s.attachments[1].client == client
    requires s.attachments[1].deadline == LEASE_MS && s.attachments[1].connection == 7 && !s.poisoned
    ensures Authorize(s, valid, 7, 1, 0, {}) == Done(s, Ok)
  {
    assert Dead(s, valid, 0) == {};
  }

  lemma TakesControl(valid: Credentials, client: Octets)
    requires valid(client, 0)
    ensures Apply(Waiting(client), Session(valid, client)[1]) == Step(With(client, 0, {}), Ok, None)
  {
    hide Authorize;
    NobodyExpires(valid, client, Waiting(client));
    assert (set k: nat | k in {} :: Key(k)) == {};
  }

  lemma Types(valid: Credentials, client: Octets, down: bool)
    requires valid(client, 0)
    ensures var event := PhysicalKey(4, down, false);
            var n: nat := if down then 1 else 2;
            Apply(With(client, n - 1, if down then {} else {4}), DoInput(valid, 7, 0, Frame(1, 2, n, 1, event), {}))
            == Step(With(client, n, if down then {4} else {}), Ok, Some(Delivery(1, 2, n, event)))
  {
    hide Authorize;
    var n: nat := if down then 1 else 2;
    var s := With(client, n - 1, if down then {} else {4});
    NobodyExpires(valid, client, s);
    assert (set k: nat | k in {} :: Key(k)) == {};
    assert (set k: nat | k in {4} :: Key(k)) == {Key(4)};
    assert {} + {4} == {4} && {4} - {4} == {} && {} + {Key(4)} == {Key(4)} && {Key(4)} - {Key(4)} == {};
    var a := s.attachments[1];
    assert s.attachments[1 := a.(sequence := n)] == map[1 := a.(sequence := n)];
  }

  /** After the press the session stands with the key down. */
  lemma KeyIsDown(valid: Credentials, client: Octets)
    requires valid(client, 0)
    ensures After([], Session(valid, client), 3) == With(client, 1, {4})
    ensures At([], Session(valid, client), 0).result == Attached(1)
    ensures At([], Session(valid, client), 2).delivered == Some(Delivery(1, 2, 1, PhysicalKey(4, true, false)))
  {
    hide Apply;
    var ops := Session(valid, client);
    assert After([], ops, 0) == Init([]);
    Attaches(valid, client);
    assert After([], ops, 1) == Waiting(client);
    TakesControl(valid, client);
    assert After([], ops, 2) == With(client, 0, {});
    Types(valid, client, true);
  }

  /** Both events are delivered, in order and under one epoch, and nothing is left down. */
  lemma OrdinarySession(valid: Credentials, client: Octets)
    requires valid(client, 0)
    ensures var ops := Session(valid, client);
            && At([], ops, 0).result == Attached(1)
            && At([], ops, 2).delivered == Some(Delivery(1, 2, 1, PhysicalKey(4, true, false)))
            && At([], ops, 3).delivered == Some(Delivery(1, 2, 2, PhysicalKey(4, false, false)))
            && After([], ops, 3).os.held == {Key(4)} && After([], ops, 4).os.held == {}
            && After([], ops, 4).holder == Some(1)
  {
    hide Apply;
    var ops := Session(valid, client);
    KeyIsDown(valid, client);
    Types(valid, client, false);
    assert After([], ops, 4) == With(client, 2, {});
    assert (set k: nat | k in {4} :: Key(k)) == {Key(4)} && (set k: nat | k in {} :: Key(k)) == {};
  }
}
