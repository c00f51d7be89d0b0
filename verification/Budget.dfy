/**
 The refinement budget: extra quality only from bits saved at the base rate. A
 token bucket in bits times microseconds, so that no fraction of a byte is lost.
 */
module Budget {
  import opened Arithmetic
  import opened Basics

  /** How much unused time counts, in microseconds. */
  const WINDOW: nat := 250_000
  /** Times are in nanoseconds, as `Duration` keeps them. */
  const NANOS: nat := 1000
  /** One byte, as bits times microseconds per second. */
  const BYTE_COST: nat := 8_000_000
  const MAX_DEBT: int := 4 * 1024 * 1024 * 8_000_000
  const I128_MAX: int := 0x7fff_ffff_ffff_ffff_ffff_ffff_ffff_ffff

  datatype State = State(last: Option<nat>, rate: nat, credit: int, suppressed: bool)

  const START := State(None, 0, 0, false)

  /** `i128` saturation. */
  function Saturate(x: int): int {
    if x > I128_MAX then I128_MAX else if x < -I128_MAX - 1 then -I128_MAX - 1 else x
  }

  /** The whole microseconds between two times, capped by the window. */
  function Elapsed(from: nat, to: nat): nat
    requires from <= to
  {
    Min((to - from) / NANOS, WINDOW)
  }

  function Update(s: State, now: nat, rate: nat): State {
    var earned :=
      if rate == 0 || (s.last.Some? && now < s.last.value) then 0
      else if s.last.Some? then Saturate(s.credit + Elapsed(s.last.value, now) * s.rate)
      else s.credit;
    // Credit earned at a faster rate is void once the rate drops; debt stays.
    var kept := if rate < s.rate then Min(earned, 0) else earned;
    State(Some(now), rate, Min(kept, rate * WINDOW), s.suppressed)
  }

  function Motion(s: State): State {
    s.(suppressed := false)
  }

  function TargetRate(s: State, base: nat, ceiling: nat, fps: nat): nat {
    var target := Min(Min(4 * base, U64_MAX), ceiling);
    if !s.suppressed && fps > 0 && target > base && s.credit >= target * 1_000_000 / fps then target else base
  }

  /** Account one object; a refinement that the credit does not cover is refused and ends boosting. */
  function Accept(s: State, now: nat, base: nat, bytes: nat, boosted: bool): (State, bool) {
    var u := Update(s, now, base);
    var cost := Saturate(bytes * BYTE_COST);
    if boosted && cost > u.credit then (u.(suppressed := true), false)
    else (u.(credit := Max(Saturate(u.credit - cost), -MAX_DEBT)), true)
  }

  // ----- runs -----

  datatype Op =
    | Target(now: nat, base: nat, ceiling: nat, fps: nat)
    | Object(now: nat, base: nat, bytes: nat, boosted: bool)
    | Moved

  function Apply(s: State, op: Op): State {
    match op
    case Target(now, base, _, _) => Update(s, now, base)
    case Object(now, base, bytes, boosted) => Accept(s, now, base, bytes, boosted).0
    case Moved => Motion(s)
  }

  /** The bytes of refinement an operation lets through. */
  function BoostedBytes(s: State, op: Op): nat {
    match op
    case Object(now, base, bytes, true) => if Accept(s, now, base, bytes, true).1 then bytes else 0
    case _ => 0
  }

  function After(s: State, ops: seq<Op>): State {
    if ops == [] then s else Apply(After(s, ops[..|ops| - 1]), ops[|ops| - 1])
  }

  function TotalBoosted(s: State, ops: seq<Op>): nat {
    if ops == [] then 0
    else TotalBoosted(s, ops[..|ops| - 1]) + BoostedBytes(After(s, ops[..|ops| - 1]), ops[|ops| - 1])
  }

  /** Inputs as their machine types allow, at most `limit` bits per second. */
  predicate Typed(op: Op, limit: nat) {
    match op
    case Target(_, base, _, _) => base <= limit <= U64_MAX
    case Object(_, base, bytes, _) => base <= limit <= U64_MAX && bytes <= U64_MAX
    case Moved => true
  }

  /** The time of the latest clocked operation, `at` if there is none. */
  function Clock(ops: seq<Op>, at: nat): nat {
    if ops == [] then at
    else if ops[|ops| - 1].Moved? then Clock(ops[..|ops| - 1], at)
    else ops[|ops| - 1].now
  }

  /** The clock of a window never runs back, from its first moment `at` on. */
  predicate Nondecreasing(ops: seq<Op>, at: nat) {
    ops == [] || (Nondecreasing(ops[..|ops| - 1], at)
                  && (ops[|ops| - 1].Moved? || Clock(ops[..|ops| - 1], at) <= ops[|ops| - 1].now))
  }

  /** Credit is bounded by the window and the debt limit, so the 128-bit arithmetic never saturates. */
  predicate InRange(s: State) {
    && s.rate <= U64_MAX
    && -MAX_DEBT <= s.credit <= s.rate * WINDOW
  }

  lemma RangeProducts(a: nat, b: nat)
    requires a <= WINDOW && b <= U64_MAX
    ensures 0 <= a * b <= WINDOW * U64_MAX
  {
    TimesMonotone(a, WINDOW, b);
  }

  lemma UpdateInRange(s: State, now: nat, rate: nat)
    requires InRange(s) && rate <= U64_MAX
    ensures InRange(Update(s, now, rate))
    ensures s.last.Some? && s.last.value <= now ==>
              Saturate(s.credit + Elapsed(s.last.value, now) * s.rate) == s.credit + Elapsed(s.last.value, now) * s.rate
  {
    if s.last.Some? && s.last.value <= now {
      RangeProducts(Elapsed(s.last.value, now), s.rate);
    }
    RangeProducts(WINDOW, s.rate);
    RangeProducts(WINDOW, rate);
  }

  lemma AcceptInRange(s: State, now: nat, base: nat, bytes: nat, boosted: bool)
    requires InRange(s) && base <= U64_MAX && bytes <= U64_MAX
    ensures InRange(Accept(s, now, base, bytes, boosted).0)
    ensures Saturate(bytes * BYTE_COST) == bytes * BYTE_COST
    ensures var u := Update(s, now, base); Saturate(u.credit - bytes * BYTE_COST) == u.credit - bytes * BYTE_COST
  {
    hide Update;
    UpdateInRange(s, now, base);
    RangeProducts(WINDOW, base);
  }

  /** The credit that can still be spent on refinement. */
  function Spendable(s: State): nat {
    Max(s.credit, 0)
  }

  /** Updating earns at most `limit` per microsecond, and after it no more than a window's worth is left. */
  lemma UpdateEarns(s: State, now: nat, rate: nat, limit: nat)
    requires InRange(s) && s.last.Some? && s.last.value <= now
    requires rate <= limit <= U64_MAX && s.rate <= limit
    ensures NANOS * Spendable(Update(s, now, rate)) <= NANOS * Spendable(s) + limit * (now - s.last.value)
  {
    var gap := now - s.last.value;
    UpdateInRange(s, now, rate);
    var whole := Elapsed(s.last.value, now);
    TimesMonotone(NANOS * whole, gap, s.rate);
    TimesMonotone(s.rate, limit, gap);
    var earned := whole * s.rate;
    assert NANOS * earned == (NANOS * whole) * s.rate;
    EarnedIsKept(s, now, rate, earned);
    hide Update, InRange;
  }

  lemma EarnedIsKept(s: State, now: nat, rate: nat, earned: nat)
    requires s.last.Some? && s.last.value <= now && earned == Elapsed(s.last.value, now) * s.rate
    requires Saturate(s.credit + earned) == s.credit + earned
    ensures Spendable(Update(s, now, rate)) <= Spendable(s) + earned
  {
  }

  lemma UpdateCaps(s: State, now: nat, rate: nat, limit: nat)
    requires rate <= limit
    ensures Spendable(Update(s, now, rate)) <= limit * WINDOW
  {
    TimesMonotone(rate, limit, WINDOW);
  }

  /** Accepting spends what it lets through, and motion or recovery objects never add credit. */
  lemma AcceptSpends(s: State, now: nat, base: nat, bytes: nat, boosted: bool)
    requires InRange(s) && base <= U64_MAX && bytes <= U64_MAX
    ensures var u := Update(s, now, base); var (t, ok) := Accept(s, now, base, bytes, boosted);
            Spendable(t) + (if boosted && ok then bytes * BYTE_COST else 0) <= Spendable(u)
  {
    hide Update;
    UpdateInRange(s, now, base);
    AcceptInRange(s, now, base, bytes, boosted);
  }

  /** The state inside a window: in range, timed by its clock, at a rate within the limit. */
  ghost predicate InWindow(s: State, clock: nat, limit: nat) {
    InRange(s) && s.last == Some(clock) && s.rate <= limit
  }

  /** One operation of a window, in terms of credit: spending is covered by what was there and what time earned. */
  lemma StepSpends(s: State, op: Op, clock: nat, limit: nat)
    requires InWindow(s, clock, limit) && Typed(op, limit) && (op.Moved? || clock <= op.now) && limit <= U64_MAX
    ensures var t := Apply(s, op); var now := if op.Moved? then clock else op.now;
            && InWindow(t, now, limit)
            && NANOS * (Spendable(t) + BoostedBytes(s, op) * BYTE_COST) <= NANOS * Spendable(s) + limit * (now - clock)
  {
    hide Update;
    match op
    case Moved =>
    case Target(now, base, _, _) =>
      UpdateEarns(s, now, base, limit);
      UpdateInRange(s, now, base);
      UpdateClock(s, now, base);
    case Object(now, base, bytes, boosted) =>
      UpdateEarns(s, now, base, limit);
      AcceptInRange(s, now, base, bytes, boosted);
      AcceptSpends(s, now, base, bytes, boosted);
      UpdateClock(s, now, base);
  }

  lemma UpdateClock(s: State, now: nat, rate: nat)
    ensures Update(s, now, rate).last == Some(now) && Update(s, now, rate).rate == rate
  {
  }

  lemma {:induction false} WindowSpends(s: State, ops: seq<Op>, at: nat, limit: nat)
    requires InWindow(s, at, limit) && limit <= U64_MAX && Nondecreasing(ops, at)
    requires forall i :: 0 <= i < |ops| ==> Typed(ops[i], limit)
    ensures at <= Clock(ops, at) && InWindow(After(s, ops), Clock(ops, at), limit)
    ensures NANOS * (Spendable(After(s, ops)) + TotalBoosted(s, ops) * BYTE_COST)
            <= NANOS * Spendable(s) + limit * (Clock(ops, at) - at)
  {
    hide Apply, BoostedBytes, Spendable, InRange;
    if ops != [] {
      var front, op := ops[..|ops| - 1], ops[|ops| - 1];
      WindowSpends(s, front, at, limit);
      var c := Clock(front, at);
      StepSpends(After(s, front), op, c, limit);
      var d := Clock(ops, at);
      assert limit * (c - at) + limit * (d - c) == limit * (d - at);
    }
  }

  lemma {:induction false} RunInRange(ops: seq<Op>)
    requires forall i :: 0 <= i < |ops| ==> Typed(ops[i], U64_MAX)
    ensures InRange(After(START, ops))
  {
    hide Update, Accept;
    if ops != [] {
      var front := ops[..|ops| - 1];
      RunInRange(front);
      match ops[|ops| - 1]
      case Moved =>
      case Target(now, base, _, _) => UpdateInRange(After(START, front), now, base);
      case Object(now, base, bytes, boosted) => AcceptInRange(After(START, front), now, base, bytes, boosted);
    }
  }

  /**
   In any run, over any window of it whose clock does not run back and whose base
   rate stays within `limit`: the refinement let through, in bits, is at most the
   limit over the time of the window and a quarter of a second. What came before,
   and the motion and recovery objects in between, make no difference.
   */
  lemma BoostIsRateLimited(before: seq<Op>, first: Op, window: seq<Op>, limit: nat)
    requires forall i :: 0 <= i < |before| ==> Typed(before[i], U64_MAX)
    requires !first.Moved? && Typed(first, limit) && limit <= U64_MAX
    requires forall i :: 0 <= i < |window| ==> Typed(window[i], limit)
    requires Nondecreasing(window, first.now)
    ensures var s := After(START, before);
            var boosted := BoostedBytes(s, first) + TotalBoosted(Apply(s, first), window);
            NANOS * BYTE_COST * boosted <= limit * (Clock(window, first.now) - first.now + NANOS * WINDOW)
  {
    hide Update, After, TotalBoosted, InRange;
    RunInRange(before);
    var s := After(START, before);
    var u := Update(s, first.now, first.base);
    UpdateInRange(s, first.now, first.base);
    UpdateCaps(s, first.now, first.base, limit);
    UpdateClock(s, first.now, first.base);
    if first.Object? {
      AcceptInRange(s, first.now, first.base, first.bytes, first.boosted);
      AcceptSpends(s, first.now, first.base, first.bytes, first.boosted);
    }
    WindowSpends(Apply(s, first), window, first.now, limit);
    Spread(limit, Clock(window, first.now) - first.now);
  }

  lemma Spread(limit: nat, elapsed: nat)
    ensures limit * (elapsed + NANOS * WINDOW) == limit * elapsed + NANOS * (limit * WINDOW)
  {
  }

  // ----- the object of the program -----

  class RefinementBudget {
    var last: Option<nat>
    var rate: nat
    var credit: int
    var suppressed: bool

    ghost function View(): State
      reads this
    {
      State(last, rate, credit, suppressed)
    }

    constructor ()
      ensures View() == START
    {
      last, rate, credit, suppressed := None, 0, 0, false;
    }

    method Refresh(now: nat, newRate: nat)
      modifies this
      ensures View() == Update(old(View()), now, newRate)
    {
      if newRate == 0 || (last.Some? && now < last.value) {
        credit := 0;
      } else if last.Some? {
        var elapsed := Elapsed(last.value, now);
        credit := Saturate(credit + elapsed * rate);
      }
      if newRate < rate {
        credit := Min(credit, 0);
      }
      rate, last := newRate, Some(now);
      credit := Min(credit, newRate * WINDOW);
    }

    method Moves()
      modifies this
      ensures View() == Motion(old(View()))
    {
      suppressed := false;
    }

    method ChooseTarget(now: nat, base: nat, ceiling: nat, fps: nat) returns (target: nat)
      modifies this
      ensures View() == Update(old(View()), now, base)
      ensures target == TargetRate(View(), base, ceiling, fps)
      ensures base <= ceiling ==> base <= target <= ceiling
    {
      Refresh(now, base);
      target := Min(Min(4 * base, U64_MAX), ceiling);
      if suppressed || fps == 0 || target <= base || credit < target * 1_000_000 / fps {
        target := base;
      }
    }

    method AcceptObject(now: nat, base: nat, bytes: nat, boosted: bool) returns (ok: bool)
      modifies this
      ensures (View(), ok) == Accept(old(View()), now, base, bytes, boosted)
    {
      Refresh(now, base);
      var cost := Saturate(bytes * BYTE_COST);
      if boosted && cost > credit {
        suppressed := true;
        return false;
      }
      credit := Max(Saturate(credit - cost), -MAX_DEBT);
      ok := true;
    }
  }
}
