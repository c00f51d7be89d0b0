/** The admission gate shared by the updater and by every piece of live work. */
module Maintenance {
  import opened Basics

  datatype Gate = Gate(draining: bool, active: nat)
  {
    predicate Admits() {
      !draining
    }

    function Entered(): Gate {
      this.(active := active + 1)
    }

    /** Dropping `n` work guards. The counter is never below the live guards. */
    function Left(n: nat): Gate {
      this.(active := if n <= active then active - n else 0)
    }

    predicate CanDrain() {
      !draining && active == 0
    }
  }

  /** `WorkGate` with its mutex held: the counter and the flag change together. */
  class WorkGate {
    var draining: bool
    var active: nat

    ghost function View(): Gate
      reads this
    {
      Gate(draining, active)
    }

    constructor ()
      ensures View() == Gate(false, 0)
    {
      draining, active := false, 0;
    }

    method Enter() returns (admitted: bool)
      modifies this
      ensures admitted == old(View()).Admits()
      ensures View() == if admitted then old(View()).Entered() else old(View())
    {
      admitted := !draining;
      if admitted {
        active := active + 1;
      }
    }

    /** Drop of one `WorkGuard`; the caller owns a guard, so the counter is positive. */
    method Leave()
      requires active > 0
      modifies this
      ensures View() == old(View()).Left(1)
    {
      active := active - 1;
    }

    method BeginDrain() returns (granted: bool)
      modifies this
      ensures granted == old(View()).CanDrain()
      ensures View() == if granted then old(View()).(draining := true) else old(View())
    {
      granted := !draining && active == 0;
      if granted {
        draining := true;
      }
    }

    method EndDrain()
      modifies this
      ensures View() == old(View()).(draining := false)
    {
      draining := false;
    }
  }
}
