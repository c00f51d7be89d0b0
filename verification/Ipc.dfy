/** The proxy worker, its ledger and the helper's admission rules, changed in place. */
module Ipc {
  import opened Basics
  import opened IpcModel

  /** Controls that may be down. The program keeps keys and buttons in two maps of the same shape. */
  class LedgerTable {
    var entries: Ledger

    constructor ()
      ensures entries == map[]
    {
      entries := map[];
    }

    method Record(command: Command, id: nat)
      modifies this
      ensures entries == IpcModel.Record(old(entries), command, id)
    {
      match command {
        case Press(c) => entries := entries[c := id];
        case _ =>
      }
    }

    method Ack(command: Command, id: nat)
      modifies this
      ensures entries == Acknowledge(old(entries), command, id)
    {
      match command {
        case Recover(_) => entries := map[];
        case Lift(control) => Retain(id, Some(control));
        case LiftAll => Retain(id, None);
        case _ =>
      }
    }

    /** Visit every entry and drop those a release with this number covers. */
    method Retain(id: nat, only: Option<Control>)
      modifies this
      ensures entries == map c | c in old(entries) && ((only.Some? && c != only.value) || old(entries)[c] > id) :: old(entries)[c]
    {
      var left := entries.Keys;
      while left != {}
        invariant left <= entries.Keys <= old(entries).Keys
        invariant forall c :: c in entries ==> entries[c] == old(entries)[c]
        invariant forall c :: c in old(entries).Keys - left ==>
                    (c in entries <==> (only.Some? && c != only.value) || old(entries)[c] > id)
        decreases left
      {
        var c :| c in left;
        if (only.None? || only.value == c) && entries[c] <= id {
          entries := entries - {c};
        }
        left := left - {c};
      }
    }
  }

  class Worker {
    const ledger: LedgerTable
    var generation: nat
    var ready: bool
    var up: bool
    var next: nat
    var started: bool
    var pending: map<nat, Pending>

    ghost function View(): Host
      reads this, ledger
    {
      Host(ledger.entries, generation, ready, if up then Up(next, started, pending) else Down)
    }

    constructor ()
      ensures View() == Init().host
      ensures fresh(ledger)
    {
      ledger := new LedgerTable();
      generation, ready, up, next, started, pending := 0, false, false, 0, false, map[];
    }

    /** The end of a connection: fence old calls and fail everything pending. */
    method Lose()
      modifies this
      ensures View() == IpcModel.Lose(old(View()))
    {
      ready := false;
      generation := generation + 1;
      up, pending := false, map[];
    }

    /**
     A call found without a connection: refused if it is of an old generation or cannot
     open one, else connected for. A recovery is filled in from the ledger first.
     */
    method Open(call: Call, connected: bool, expired: bool) returns (request: Option<Request>)
      requires !up
      modifies this, ledger
      ensures if call.generation != old(generation) || (old(generation) != 0 && !call.RecoveryCall?) || !connected
              then View() == old(View()) && request == None
              else
                var up := old(View()).(link := Up(0, false, map[]));
                var command := Opening(old(View()), call);
                && View() == Submit(up, call, command, expired)
                && request == if Dispose(up, call, expired).Send? then Some(Request(1, command, true)) else None
    {
      if call.generation != generation || (generation != 0 && !call.RecoveryCall?) {
        return None;
      }
      var command := if call.RecoveryCall? then Recover(ledger.entries.Keys) else call.command;
      if !connected {
        return None;
      }
      up, next, started, pending := true, 0, false, map[];
      request := Process(call, command, expired);
    }

    /** A later call on the same connection. */
    method Take(call: Call, expired: bool) returns (request: Option<Request>)
      requires up
      modifies this, ledger
      ensures View() == Submit(old(View()), call, Bare(call), expired)
      ensures request == if Dispose(old(View()), call, expired).Send?
                         then Some(Request(old(next) + 1, Bare(call), !old(started))) else None
    {
      request := Process(call, if call.RecoveryCall? then Recover({}) else call.command, expired);
    }

    /** Fence, number, record and send one call. */
    method Process(call: Call, command: Command, expired: bool) returns (request: Option<Request>)
      requires up
      modifies this, ledger
      ensures View() == Submit(old(View()), call, command, expired)
      ensures request == if Dispose(old(View()), call, expired).Send?
                         then Some(Request(old(next) + 1, command, !old(started))) else None
    {
      if call.generation != generation {
        return None;
      }
      if !ready && call.generation != 0 && !call.RecoveryCall? {
        return None;
      }
      if next + 1 > MAX_SAFE {
        Lose();
        return None;
      }
      next := next + 1;
      if expired {
        return None;
      }
      ledger.Record(command, next);
      request := Some(Request(next, command, !started));
      started := true;
      pending := pending[next := Pending(command, call.RecoveryCall?, false)];
    }

    /** One response from the helper. */
    method Accept(r: Response)
      requires up
      modifies this, ledger
      ensures View() == Receive(old(View()), r)
    {
      if r.id == 0 {
        if !r.done {
          Lose();
        }
        return;
      }
      if r.id !in pending {
        Lose();
        return;
      }
      var p := pending[r.id];
      pending := pending - {r.id};
      if p.expired || (p.recovery && !r.done) {
        Lose();
        return;
      }
      if r.done {
        ledger.Ack(p.command, r.id);
      }
      if p.recovery || generation == 0 {
        ready := true;
      }
    }
  }

  /** The helper's reading loop: one stream, numbers that only grow, recovery only at the start. */
  class Helper {
    var serving: bool
    var first: bool
    var last: nat

    constructor ()
      ensures serving && first && last == 0
    {
      serving, first, last := true, true, 0;
    }

    /** The state a session of the model and this object share. */
    ghost predicate Serves(s: Session)
      reads this
    {
      s.serving == serving && s.first == first && s.last == last
    }

    /** Decide about the next request of `s`; the caller executes it if it has a number. */
    method Admit(ghost s: Session, r: Request, ghost ok: bool) returns (admitted: bool)
      requires serving && Serves(s) && s.requests != [] && r == s.requests[0]
      modifies this
      ensures admitted == Accepts(s, r)
      ensures Serves(Executed(s, ok))
    {
      admitted := false;
      if r.start != first || (r.command.Recover? && !first) {
        serving := false;
        return;
      }
      if r.id == 0 {
        if !r.command.Other? {
          serving := false;
          return;
        }
        first := false;
        return true;
      }
      if r.id <= last {
        serving := false;
        return;
      }
      first, last := false, r.id;
      admitted := true;
    }
  }
}
