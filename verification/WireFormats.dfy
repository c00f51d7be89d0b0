/** The encodings themselves, byte for byte. */
module WireFormats {
  import opened Basics
  import opened BigEndian
  import opened CborModel
  import Cbor
  import CborProofs
  import CborTheorems
  import SocketWire
  import Utf8

  /** Which initial byte announces which kind of value (section 3 of RFC 8949). */
  lemma InitialBytes(v: Value)
    ensures var b := Encode(v)[0];
            match v
            case U64(_) => b < 0x20
            case I64(i) => if i >= 0 then b < 0x20 else 0x20 <= b < 0x40
            case Bytes(_) => 0x40 <= b < 0x60
            case Text(_) => 0x60 <= b < 0x80
            case Array(_) => 0x80 <= b < 0xa0
            case Map(_) => 0xa0 <= b < 0xc0
            case Bool(t) => b == (if t then 0xf5 else 0xf4)
            case Null => b == 0xf6
            case F64(_) => b == 0xfb
  {
    hide ToBytes, EncodeItems, EncodeEntries;
  }

  /** A number takes one byte up to 23, else one, two, four or eight bytes after the initial one. */
  lemma HeadLayout(major: nat, v: nat)
    requires major < 8 && v <= U64_MAX
    ensures var h := Head(major, v);
            && |h| == (if v < 24 then 1 else if v < 0x100 then 2 else if v < 0x1_0000 then 3 else if v < 0x1_0000_0000 then 5 else 9)
            && h[0] == 32 * major + (if v < 24 then v else if v < 0x100 then 24 else if v < 0x1_0000 then 25 else if v < 0x1_0000_0000 then 26 else 27)
            && (v >= 24 ==> FromBytes(h[1..]) == v)
  {
    hide ToBytes, FromBytes, Pow256;
    Widths();
    var h := Head(major, v);
    if v >= 24 {
      ReadsBack(v, |h| - 1);
      assert h[1..] == ToBytes(v, |h| - 1);
    }
  }

  /** The most significant byte comes first. */
  lemma Significance(s: Octets, b: Byte)
    ensures FromBytes(s + [b]) == 256 * FromBytes(s) + b
  {
    assert (s + [b])[..|s|] == s;
  }

  lemma SmallArrays()
    ensures Encode(Array([U64(1), U64(2), U64(3)])) == [0x83, 0x01, 0x02, 0x03]
  {
    assert [U64(1), U64(2), U64(3)][1..] == [U64(2), U64(3)];
    assert [U64(2), U64(3)][1..] == [U64(3)];
    assert [U64(3)][1..] == [];
    assert EncodeItems([U64(3)]) == [0x03] + EncodeItems([]);
    assert EncodeItems([U64(2), U64(3)]) == [0x02, 0x03];
    assert EncodeItems([U64(1), U64(2), U64(3)]) == [0x01, 0x02, 0x03];
  }

  lemma SmallMaps()
    ensures Encode(Map([])) == [0xa0]
    ensures Encode(Map([Entry(1, U64(2)), Entry(3, U64(4))])) == [0xa2, 0x01, 0x02, 0x03, 0x04]
  {
    var two, one := [Entry(1, U64(2)), Entry(3, U64(4))], [Entry(3, U64(4))];
    assert two[1..] == one && one[1..] == [];
    assert EncodeEntries(one) == [0x03] + [0x04] + EncodeEntries([]);
    assert EncodeEntries(two) == [0x01] + [0x02] + EncodeEntries(one);
  }

  /** Examples of appendix A of RFC 8949. */
  lemma Examples()
    ensures Encode(U64(0)) == [0x00] && Encode(U64(23)) == [0x17]
    ensures Encode(U64(24)) == [0x18, 0x18] && Encode(U64(100)) == [0x18, 0x64] && Encode(U64(1000)) == [0x19, 0x03, 0xe8]
    ensures Encode(I64(-1)) == [0x20] && Encode(I64(-10)) == [0x29] && Encode(I64(-100)) == [0x38, 0x63]
    ensures Encode(Bytes([1, 2, 3, 4])) == [0x44, 0x01, 0x02, 0x03, 0x04] && Encode(Text([0x61])) == [0x61, 0x61]
  {
    One(24);
    One(100);
    One(99);
    Two(1000);
  }

  lemma One(v: nat)
    requires v < 256
    ensures ToBytes(v, 1) == [v]
  {
    assert ToBytes(v / 256, 0) == [];
  }

  lemma Two(v: nat)
    requires v < 0x1_0000
    ensures ToBytes(v, 2) == [v / 256, v % 256]
  {
    One(v / 256);
  }

  /** A message is its kind followed by its fields. */
  lemma MessageLayout(m: SocketWire.Message)
    requires m.kind <= U64_MAX
    ensures var b, kind := SocketWire.EncodeMessage(m), Head(0, m.kind);
            |kind| < |b| && b[..|kind|] == kind && b[|kind|..] == Encode(Map(m.fields)) && 0xa0 <= b[|kind|] < 0xc0
  {
    hide EncodeEntries, Head;
    InitialBytes(Map(m.fields));
    assert Encode(U64(m.kind)) == Head(0, m.kind);
    var b := SocketWire.EncodeMessage(m);
    assert b[|Head(0, m.kind)|] == Encode(Map(m.fields))[0];
  }

  // ----- what is refused, and why -----

  /** A negative number below the 64-bit range is too large; a longer form than needed is not canonical. */
  lemma NumbersRefused(major: nat, v: nat, rest: Octets, depth: nat)
    requires depth <= 64 && v <= U64_MAX && major < 6
    ensures v > 0x7fff_ffff_ffff_ffff ==> Parse(Head(1, v) + rest, depth) == Err(LengthTooLarge)
    ensures v < 24 ==> Parse([32 * major + 24, v] + rest, depth) == Err(NonCanonicalInteger)
    ensures v < 0x100 ==> Parse([32 * major + 25] + ToBytes(v, 2) + rest, depth) == Err(NonCanonicalInteger)
    ensures v < 0x1_0000 ==> Parse([32 * major + 26] + ToBytes(v, 4) + rest, depth) == Err(NonCanonicalInteger)
    ensures v < 0x1_0000_0000 ==> Parse([32 * major + 27] + ToBytes(v, 8) + rest, depth) == Err(NonCanonicalInteger)
  {
    hide ToBytes, FromBytes, Pow256, ParseBody, Wide, Parse;
    Widths();
    if v > 0x7fff_ffff_ffff_ffff {
      TooNegative(v, rest, depth);
    }
    if v < 24 {
      One(v);
      assert [32 * major + 24, v] + rest == [32 * major + 24] + ToBytes(v, 1) + rest;
      LongForm(major, 24, v, 1, 24, rest, depth);
    }
    if v < 0x100 {
      LongForm(major, 25, v, 2, 0x100, rest, depth);
    }
    if v < 0x1_0000 {
      LongForm(major, 26, v, 4, 0x1_0000, rest, depth);
    }
    if v < 0x1_0000_0000 {
      LongForm(major, 27, v, 8, 0x1_0000_0000, rest, depth);
    }
  }

  lemma TooNegative(v: nat, rest: Octets, depth: nat)
    requires depth <= 64 && 0x7fff_ffff_ffff_ffff < v <= U64_MAX
    ensures Parse(Head(1, v) + rest, depth) == Err(LengthTooLarge)
  {
    hide Head, ParseArgument;
    CborProofs.HeadParses(1, v, rest);
  }

  lemma LongForm(major: nat, a: nat, v: nat, width: nat, least: nat, rest: Octets, depth: nat)
    requires depth <= 64 && major < 6 && v < least && v < Pow256(width)
    requires (a, width, least) in {(24, 1, 24), (25, 2, 0x100), (26, 4, 0x1_0000), (27, 8, 0x1_0000_0000)}
    ensures Parse([32 * major + a] + ToBytes(v, width) + rest, depth) == Err(NonCanonicalInteger)
  {
    hide ToBytes, FromBytes, Pow256, ParseBody;
    ReadsBack(v, width);
    CborProofs.InitialParses(major, a, ToBytes(v, width), rest);
    assert (ToBytes(v, width) + rest)[..width] == ToBytes(v, width);
  }

  /** Tags, other simple values and indefinite lengths are not part of the protocol. */
  lemma KindsRefused(b: Octets, depth: nat)
    requires depth <= 64 && b != []
    ensures 0xc0 <= b[0] < 0xe0 ==> Parse(b, depth) == Err(UnsupportedType)
    ensures b[0] >= 0xe0 && b[0] !in {0xf4, 0xf5, 0xf6, 0xfb} ==> Parse(b, depth) == Err(UnsupportedType)
    ensures b[0] < 0xc0 && b[0] % 32 >= 28 ==> Parse(b, depth) == Err(UnsupportedType)
    ensures Parse([], depth) == Err(UnexpectedEnd)
  {
    hide ParseBody, FromBytes;
  }

  /** Text has to be UTF-8, and is not looked at before all of it is there. */
  lemma TextRefused(text: Octets, rest: Octets, depth: nat)
    requires depth <= 64 && |text| <= U64_MAX && !Utf8.Valid(text)
    ensures Parse(Head(3, |text|) + text + rest, depth) == Err(InvalidUtf8)
  {
    hide Parse, Head, Utf8.Valid;
    CborProofs.EncodedBody(3, |text|, text, rest, depth);
    assert (text + rest)[..|text|] == text;
  }

  /** A key that has been seen, or is not an unsigned number, is refused. */
  lemma KeysRefused(k: nat, value: Value, key: Value, rest: Octets, depth: nat, seen: set<nat>)
    requires k <= U64_MAX && depth + Depth(value) <= 64 && Valid(value) && UnsignedForm(value)
    requires depth + Depth(key) <= 64 && Valid(key) && UnsignedForm(key)
    ensures k in seen ==> ParseEntry(Head(0, k) + Encode(value) + rest, depth, seen) == Err(DuplicateMapKey)
    ensures !key.U64? ==> ParseEntry(Encode(key) + rest, depth, seen) == Err(ExpectedUnsignedMapKey)
  {
    hide Parse, Head, Encode, Valid, UnsignedForm, Depth;
    CborProofs.ParseEncoded(key, rest, depth);
    var tail := Encode(value) + rest;
    assert Head(0, k) + Encode(value) + rest == Head(0, k) + tail;
    CborProofs.NumberParses(k, tail, depth);
    assert (Head(0, k) + tail)[|Head(0, k)|..] == tail;
    CborProofs.ParseEncoded(value, rest, depth);
  }

  /** A message without its fields is not a message. */
  lemma LoneValueIsIncomplete(v: Value)
    requires Valid(v) && Ordered(v) && UnsignedForm(v) && Depth(v) <= 64 && |Encode(v)| <= 64 * 1024 * 1024
    ensures SocketWire.DecodeSequence(Encode(v)) == SocketWire.Broken(SocketWire.IncompletePair)
    ensures SocketWire.DecodeSequence([]) == SocketWire.Broken(SocketWire.EmptySequence)
  {
    hide Encode, Decode, Valid, Ordered, UnsignedForm, Depth, Canonical;
    CborTheorems.DecodeEncoded(v, [], 0);
    CborTheorems.CanonicalFacts(v);
    assert Encode(v) + [] == Encode(v) && Encode(v)[|Encode(v)|..] == [];
    assert SocketWire.DecodeValues([]) == Cbor.Success([]);
  }

  /** A value that cannot be read, and a pair that is not a kind and its fields, are told apart. */
  lemma PrefixRefused(v: Value, w: Value, rest: Octets, b: Octets)
    requires Valid(v) && Ordered(v) && Depth(v) <= 64 && Valid(w) && Ordered(w) && Depth(w) <= 64
    requires |Encode(v) + Encode(w) + rest| <= 64 * 1024 * 1024 && |b| <= 64 * 1024 * 1024
    ensures !(Canonical(v).U64? && Canonical(w).Map?) ==>
              SocketWire.DecodePrefix(Encode(v) + Encode(w) + rest) == SocketWire.Bad(SocketWire.CodecProblem)
    ensures Decode(b, 0).Err? && Decode(b, 0).error != UnexpectedEnd ==>
              SocketWire.DecodePrefix(b) == SocketWire.Bad(SocketWire.CborProblem(Decode(b, 0).error))
    ensures Decode(b, 0) == Err(UnexpectedEnd) ==> SocketWire.DecodePrefix(b) == SocketWire.NeedMore
  {
    hide Encode, Decode, Valid, Ordered, Depth, Canonical;
    var tail := Encode(w) + rest;
    assert Encode(v) + Encode(w) + rest == Encode(v) + tail;
    CborTheorems.DecodeEncoded(v, tail, 0);
    CborTheorems.DecodeEncoded(w, rest, 0);
    assert (Encode(v) + tail)[|Encode(v)|..] == tail;
  }

  /** A stream that ends inside a message ends the reading; one that reaches the limit inside it is over the limit. */
  lemma ReadingStops(m: SocketWire.Message, rest: Octets, cut: nat, limit: nat)
    requires SocketWire.Sendable(m) && cut <= |SocketWire.EncodeMessage(m) + rest|
    requires Min(cut, limit) < |SocketWire.EncodeMessage(m)| && |SocketWire.EncodeMessage(m)| <= 64 * 1024 * 1024
    ensures SocketWire.Expected((SocketWire.EncodeMessage(m) + rest)[..cut], limit) ==
            if cut >= limit then SocketWire.OverLimit else SocketWire.EndOfStream
  {
    hide SocketWire.EncodeMessage, SocketWire.Sendable, SocketWire.DecodePrefix;
    var message := SocketWire.EncodeMessage(m);
    var whole := (message + rest)[..cut];
    assert whole[..Min(|whole|, limit)] == message[..Min(cut, limit)];
    SocketWire.StrictPrefixOfMessage(m, Min(cut, limit));
  }
}
