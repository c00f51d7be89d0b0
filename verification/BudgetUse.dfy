/** What the refinement budget gives, not only what it withholds. */
module BudgetUse {
  import opened Arithmetic
  import opened Basics
  import opened Budget

  /** Credit after a time: bits saved at the old rate, at most a quarter of a second's worth at the new one. */
  lemma UpdateIs(s: State, now: nat, rate: nat)
    requires InRange(s) && rate <= U64_MAX
    ensures var u := Update(s, now, rate);
            var back := s.last.Some? && now < s.last.value;
            var saved := if s.last.None? || back then 0 else Min((now - s.last.value) / 1000, 250_000) * s.rate;
            && u.last == Some(now) && u.rate == rate && u.suppressed == s.suppressed
            && (rate == 0 || back ==> u.credit == 0)
            && (rate > 0 && !back ==>
                  && u.credit <= rate * 250_000
                  && (rate >= s.rate ==> u.credit == Min(s.credit + saved, rate * 250_000))
                  && (rate < s.rate ==> u.credit == Min(s.credit + saved, 0)))
  {
    if s.last.Some? && s.last.value <= now {
      RangeProducts(Elapsed(s.last.value, now), s.rate);
    }
    RangeProducts(WINDOW, rate);
    RangeProducts(WINDOW, s.rate);
  }

  /** An object is refused exactly if it is a refinement its credit does not cover; that ends boosting. */
  lemma AcceptIff(s: State, now: nat, base: nat, bytes: nat, boosted: bool)
    requires InRange(s) && base <= U64_MAX && bytes <= U64_MAX
    ensures var u, (t, ok) := Update(s, now, base), Accept(s, now, base, bytes, boosted);
            && (ok <==> !boosted || 8_000_000 * bytes <= u.credit)
            && (!ok ==> t == u.(suppressed := true))
            && (ok ==> t == u.(credit := Max(u.credit - 8_000_000 * bytes, -4 * 1024 * 1024 * 8_000_000)))
  {
    hide Update;
    UpdateInRange(s, now, base);
    RangeProducts(WINDOW, base);
  }

  /** After a quarter of a second at its rate without debt, a refinement of a quarter second's bits goes through. */
  lemma IdleEarnsABurst(s: State, now: nat, bytes: nat)
    requires InRange(s) && s.credit >= 0 && s.rate > 0 && s.last.Some? && s.last.value + 250_000_000 <= now
    requires 8 * bytes * 4 <= s.rate
    ensures Accept(s, now, s.rate, bytes, true).1
  {
    hide Update, Accept;
    UpdateIs(s, now, s.rate);
    assert 8_000_000 * bytes <= s.rate * 250_000;
    assert bytes <= U64_MAX;
    AcceptIff(s, now, s.rate, bytes, true);
  }

  /** The target: four times the base within the ceiling, exactly while a whole frame of that is covered. */
  lemma TargetIff(s: State, base: nat, ceiling: nat, fps: nat)
    requires base <= U64_MAX && ceiling <= U64_MAX
    ensures var high := Min(4 * base, ceiling);
            TargetRate(s, base, ceiling, fps) ==
              if !s.suppressed && fps > 0 && high > base && high * 1_000_000 / fps <= s.credit then high else base
  {
  }

  lemma UpdateKeepsSuppressed(s: State, now: nat, rate: nat)
    ensures Update(s, now, rate).suppressed == s.suppressed
  {
  }

  /** Once a refinement was refused, nothing is boosted until something moves. */
  lemma {:induction false} SuppressedUntilMotion(s: State, ops: seq<Op>, base: nat, ceiling: nat, fps: nat)
    requires s.suppressed && forall i :: 0 <= i < |ops| ==> !ops[i].Moved?
    ensures After(s, ops).suppressed && TargetRate(After(s, ops), base, ceiling, fps) == base
  {
    hide Update;
    if ops != [] {
      var front, op := ops[..|ops| - 1], ops[|ops| - 1];
      SuppressedUntilMotion(s, front, base, ceiling, fps);
      UpdateKeepsSuppressed(After(s, front), op.now, op.base);
    }
  }

  /** Motion lifts the suppression and leaves the account alone. */
  lemma MotionIs(s: State)
    ensures !Motion(s).suppressed && Motion(s).credit == s.credit && Motion(s).rate == s.rate && Motion(s).last == s.last
  {
  }
}
