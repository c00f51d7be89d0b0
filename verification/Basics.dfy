/** Types shared by every model in this project. */
module Basics {
  datatype Option<+T> = None | Some(value: T)

  /** A physical key (a USB HID keyboard usage) or a pointer button. */
  datatype Control = Key(usage: nat) | Button(number: nat)

  /** One octet. */
  type Byte = b: int | 0 <= b < 256

  /** Text and opaque payloads are handled as the octets the program sees. */
  type Octets = seq<Byte>

  const U64_MAX: nat := 0xffff_ffff_ffff_ffff

  /** The largest integer the wire protocol carries exactly (2^53 - 1). */
  const MAX_SAFE: nat := 9_007_199_254_740_991

  /** `u64::saturating_add`. */
  function SaturatingAdd(a: nat, b: nat): nat {
    if a + b > U64_MAX then U64_MAX else a + b
  }

  /** A byte stream, from the pieces it arrives in. */
  function Joined(chunks: seq<Octets>): Octets {
    if chunks == [] then [] else chunks[0] + Joined(chunks[1..])
  }

  function Min(a: int, b: int): int {
    if a <= b then a else b
  }

  function Max(a: int, b: int): int {
    if a <= b then b else a
  }

  lemma SubsetSize<T>(a: set<T>, b: set<T>)
    requires a <= b
    ensures |a| <= |b|
  {
    assert b == a + (b - a);
  }
}
