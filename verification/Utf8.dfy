/** Well-formed UTF-8 (RFC 3629, section 4): the test `String::from_utf8` applies. */
module Utf8 {
  import opened Basics

  predicate Tail(b: Byte) {
    0x80 <= b <= 0xbf
  }

  /** The length of the well-formed character `s` begins with, or 0. */
  function CharLength(s: Octets): (n: nat)
    ensures n <= |s|
  {
    if |s| >= 1 && s[0] <= 0x7f then 1
    else if |s| >= 2 && 0xc2 <= s[0] <= 0xdf && Tail(s[1]) then 2
    else if |s| >= 3 && Tail(s[2])
            && ((s[0] == 0xe0 && 0xa0 <= s[1] <= 0xbf)
                || ((0xe1 <= s[0] <= 0xec || 0xee <= s[0] <= 0xef) && Tail(s[1]))
                || (s[0] == 0xed && 0x80 <= s[1] <= 0x9f)) then 3
    else if |s| >= 4 && Tail(s[2]) && Tail(s[3])
            && ((s[0] == 0xf0 && 0x90 <= s[1] <= 0xbf)
                || (0xf1 <= s[0] <= 0xf3 && Tail(s[1]))
                || (s[0] == 0xf4 && 0x80 <= s[1] <= 0x8f)) then 4
    else 0
  }

  predicate Valid(s: Octets) {
    s == [] || (CharLength(s) > 0 && Valid(s[CharLength(s)..]))
  }

  lemma CharStands(a: Octets, b: Octets)
    requires CharLength(a) > 0
    ensures CharLength(a + b) == CharLength(a)
  {
  }

  /** Whole characters followed by whole characters. */
  lemma {:induction false} ValidConcat(a: Octets, b: Octets)
    requires Valid(a)
    ensures Valid(a + b) <==> Valid(b)
  {
    hide CharLength;
    if a == [] {
      assert a + b == b;
    } else {
      var n := CharLength(a);
      CharStands(a, b);
      assert (a + b)[n..] == a[n..] + b;
      ValidConcat(a[n..], b);
    }
  }

  // ----- reading bytes that may not be text -----

  const REPLACEMENT: Octets := [0xef, 0xbf, 0xbd]

  /** Whether `b` may follow the lead byte `a` of a character of three or four bytes. */
  predicate Second(a: Byte, b: Byte) {
    || (a == 0xe0 && 0xa0 <= b <= 0xbf) || (0xe1 <= a <= 0xef && a != 0xed && Tail(b)) || (a == 0xed && 0x80 <= b <= 0x9f)
    || (a == 0xf0 && 0x90 <= b <= 0xbf) || (0xf1 <= a <= 0xf3 && Tail(b)) || (a == 0xf4 && 0x80 <= b <= 0x8f)
  }

  /** How much of an ill-formed beginning is replaced at once: as far as it could still have become a character. */
  function BadLength(s: Octets): (n: nat)
    requires s != []
    ensures 1 <= n <= |s|
  {
    if |s| < 2 || !Second(s[0], s[1]) then 1
    else if s[0] >= 0xf0 && |s| >= 3 && Tail(s[2]) then 3
    else 2
  }

  /** `String::from_utf8_lossy`. */
  function Lossy(s: Octets): Octets
    decreases |s|
  {
    if s == [] then []
    else if CharLength(s) > 0 then s[..CharLength(s)] + Lossy(s[CharLength(s)..])
    else REPLACEMENT + Lossy(s[BadLength(s)..])
  }

  lemma CharAlone(s: Octets)
    requires CharLength(s) > 0
    ensures Valid(s[..CharLength(s)])
  {
    var c := s[..CharLength(s)];
    assert CharLength(c) == |c|;
    assert c[|c|..] == [];
  }

  lemma ReplacementIsValid()
    ensures Valid(REPLACEMENT)
  {
    assert CharLength(REPLACEMENT) == 3;
    assert REPLACEMENT[3..] == [];
  }

  /** The result is always text. */
  lemma {:induction false} LossyIsValid(s: Octets)
    ensures Valid(Lossy(s))
    decreases |s|
  {
    hide CharLength, Valid, BadLength;
    if s == [] {
      ValidNothing();
    } else if CharLength(s) > 0 {
      CharAlone(s);
      LossyIsValid(s[CharLength(s)..]);
      ValidConcat(s[..CharLength(s)], Lossy(s[CharLength(s)..]));
    } else {
      ReplacementIsValid();
      LossyIsValid(s[BadLength(s)..]);
      ValidConcat(REPLACEMENT, Lossy(s[BadLength(s)..]));
    }
  }

  lemma ValidNothing()
    ensures Valid([])
  {
  }

  /** Text is read as it is. */
  lemma {:induction false} LossyKeepsText(s: Octets)
    requires Valid(s)
    ensures Lossy(s) == s
    decreases |s|
  {
    hide CharLength, BadLength;
    if s != [] {
      LossyKeepsText(s[CharLength(s)..]);
      assert s == s[..CharLength(s)] + s[CharLength(s)..];
    }
  }

  lemma LossyAscii(c: Byte, rest: Octets)
    requires c < 0x80
    ensures Lossy([c] + rest) == [c] + Lossy(rest)
  {
    var s := [c] + rest;
    assert CharLength(s) == 1 && s[..1] == [c] && s[1..] == rest;
  }
}
