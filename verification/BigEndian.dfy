/** Big-endian integers of a fixed width. */
module BigEndian {
  import opened Basics

  function Pow256(k: nat): nat {
    if k == 0 then 1 else 256 * Pow256(k - 1)
  }

  function ToBytes(v: nat, width: nat): (r: Octets)
    ensures |r| == width
  {
    if width == 0 then [] else ToBytes(v / 256, width - 1) + [v % 256]
  }

  function FromBytes(s: Octets): nat {
    if s == [] then 0 else 256 * FromBytes(s[..|s| - 1]) + s[|s| - 1]
  }

  lemma {:induction false} FromBytesBound(s: Octets)
    ensures FromBytes(s) < Pow256(|s|)
  {
    if s != [] {
      FromBytesBound(s[..|s| - 1]);
    }
  }

  lemma {:induction false} ReadsBack(v: nat, width: nat)
    requires v < Pow256(width)
    ensures FromBytes(ToBytes(v, width)) == v
  {
    if width != 0 {
      ReadsBack(v / 256, width - 1);
      var s := ToBytes(v, width);
      assert s[..|s| - 1] == ToBytes(v / 256, width - 1);
    }
  }

  lemma {:induction false} WritesBack(s: Octets)
    ensures ToBytes(FromBytes(s), |s|) == s
  {
    if s != [] {
      WritesBack(s[..|s| - 1]);
      assert s == s[..|s| - 1] + [s[|s| - 1]];
    }
  }

  lemma Widths()
    ensures Pow256(1) == 0x100
    ensures Pow256(2) == 0x1_0000
    ensures Pow256(4) == 0x1_0000_0000
    ensures Pow256(8) == 0x1_0000_0000_0000_0000
  {
    assert Pow256(3) == 0x100_0000;
    assert Pow256(5) == 0x100_0000_0000;
    assert Pow256(6) == 0x1_0000_0000_0000;
    assert Pow256(7) == 0x100_0000_0000_0000;
  }

  /** A number from its four bytes, the most significant first. */
  function Quad(a: nat, b: nat, c: nat, d: nat): nat {
    a * 0x100_0000 + b * 0x1_0000 + c * 0x100 + d
  }

  lemma FourBytes(v: nat)
    requires v < 0x1_0000_0000
    ensures var s := ToBytes(v, 4); |s| == 4 && Quad(s[0], s[1], s[2], s[3]) == v
  {
    var three := ToBytes(v / 256, 3);
    var two := ToBytes(v / 256 / 256, 2);
    var one := ToBytes(v / 256 / 256 / 256, 1);
    assert ToBytes(v / 256 / 256 / 256 / 256, 0) == [];
    assert one == [v / 256 / 256 / 256 % 256];
    assert two == one + [v / 256 / 256 % 256];
    assert three == two + [v / 256 % 256];
    assert ToBytes(v, 4) == three + [v % 256];
  }

  // ----- order -----

  /** Bytewise lexicographic order of strings of one length. */
  predicate Precedes(a: Octets, b: Octets)
    requires |a| == |b|
  {
    a != [] && (a[0] < b[0] || (a[0] == b[0] && Precedes(a[1..], b[1..])))
  }

  lemma {:induction false} PrecedesAppend(a: Octets, b: Octets, x: Byte, y: Byte)
    requires |a| == |b|
    ensures Precedes(a + [x], b + [y]) <==> Precedes(a, b) || (a == b && x < y)
  {
    if a != [] {
      PrecedesAppend(a[1..], b[1..], x, y);
      assert (a + [x])[1..] == a[1..] + [x] && (b + [y])[1..] == b[1..] + [y];
      assert a == b <==> a[0] == b[0] && a[1..] == b[1..];
    }
  }

  /** Numbers of one width compare like their bytes. */
  lemma {:induction false} BytesOrderLikeNumbers(v: nat, w: nat, width: nat)
    requires v < Pow256(width) && w < Pow256(width)
    ensures Precedes(ToBytes(v, width), ToBytes(w, width)) <==> v < w
  {
    if width != 0 {
      BytesOrderLikeNumbers(v / 256, w / 256, width - 1);
      PrecedesAppend(ToBytes(v / 256, width - 1), ToBytes(w / 256, width - 1), v % 256, w % 256);
      if ToBytes(v / 256, width - 1) == ToBytes(w / 256, width - 1) {
        ReadsBack(v / 256, width - 1);
        ReadsBack(w / 256, width - 1);
      }
    }
  }
}
