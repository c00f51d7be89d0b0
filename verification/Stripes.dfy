/** The bundle codec, the layouts and the frame regions of striped video. */
module Stripes {
  import opened Arithmetic
  import opened Basics
  import opened BigEndian
  import opened StripeModel

  // ----- bundles: both directions -----

  lemma RecordReads(p: Packet, rest: Octets, last: Option<Byte>, stripes: nat, first: bool)
    requires |p.data| <= MAX_BUNDLE
    ensures ReadRecord(Record(p) + rest, last, stripes, first) ==
            if Admissible(p, last, stripes, first) then Some(p) else None
    ensures (Record(p) + rest)[|Record(p)|..] == rest
  {
    hide Admissible;
    var b := Record(p) + rest;
    Widths();
    ReadsBack(|p.data|, 4);
    assert b[2..6] == ToBytes(|p.data|, 4);
    assert b[6..6 + |p.data|] == p.data;
  }

  /** Reading what was serialized returns the packets exactly if they are admissible. */
  lemma {:induction false} RecordsRead(packets: seq<Packet>, last: Option<Byte>, stripes: nat, first: bool)
    requires |Records(packets)| <= MAX_BUNDLE
    ensures ReadRecords(Records(packets), |packets|, last, stripes, first) ==
            if AdmissibleAll(packets, last, stripes, first) then Some(packets) else None
  {
    hide Admissible, ReadRecord, Record;
    if packets != [] {
      DataFits(packets[0]);
      RecordReads(packets[0], Records(packets[1..]), last, stripes, first);
      RecordsRead(packets[1..], Some(packets[0].index), stripes, first);
      assert packets == [packets[0]] + packets[1..];
    }
  }

  lemma DataFits(p: Packet)
    ensures |p.data| <= |Record(p)|
  {
  }

  lemma RecordRebuilds(b: Octets, last: Option<Byte>, stripes: nat, first: bool)
    requires ReadRecord(b, last, stripes, first).Some?
    ensures var p := ReadRecord(b, last, stripes, first).value;
            |Record(p)| <= |b| && b[..|Record(p)|] == Record(p) && Admissible(p, last, stripes, first)
  {
    hide Admissible;
    var p := ReadRecord(b, last, stripes, first).value;
    WritesBack(b[2..6]);
    assert b[..6 + |p.data|] == [b[0], b[1]] + b[2..6] + b[6..6 + |p.data|];
  }

  lemma {:induction false} RecordsRebuild(b: Octets, n: nat, last: Option<Byte>, stripes: nat, first: bool)
    requires ReadRecords(b, n, last, stripes, first).Some?
    ensures var ps := ReadRecords(b, n, last, stripes, first).value;
            |ps| == n && Records(ps) == b && AdmissibleAll(ps, last, stripes, first)
    decreases n
  {
    hide Admissible, ReadRecord, Record;
    if n != 0 {
      RecordRebuilds(b, last, stripes, first);
      var p := ReadRecord(b, last, stripes, first).value;
      RecordsRebuild(b[|Record(p)|..], n - 1, Some(p.index), stripes, first);
      var ps := ReadRecords(b, n, last, stripes, first).value;
      assert ps[1..] == ReadRecords(b[|Record(p)|..], n - 1, Some(p.index), stripes, first).value;
      assert b == b[..|Record(p)|] + b[|Record(p)|..];
    }
  }

  lemma SerializedParts(packets: seq<Packet>)
    requires |packets| < 256
    ensures var b := Serialize(packets);
            |b| >= 4 && b[..3] == MAGIC && b[3] == |packets| && b[4..] == Records(packets)
  {
  }

  /** Decoding a serialized list returns it exactly if it is a bundle. */
  lemma DecodeSerialized(packets: seq<Packet>, stripes: nat, first: bool)
    requires |packets| < 256
    ensures Decode(Serialize(packets), stripes, first) ==
            if Bundle(packets, stripes, first) then Some(packets) else None
  {
    hide ReadRecords, Records, AdmissibleAll;
    SerializedParts(packets);
    if |Serialize(packets)| <= MAX_BUNDLE {
      RecordsRead(packets, None, stripes, first);
    }
  }

  /** Whatever is accepted is the serialization of a bundle. */
  lemma DecodedIsSerialized(data: Octets, stripes: nat, first: bool)
    requires Decode(data, stripes, first).Some?
    ensures var ps := Decode(data, stripes, first).value;
            |ps| < 256 && Serialize(ps) == data && Bundle(ps, stripes, first)
  {
    hide ReadRecords, Records, AdmissibleAll;
    RecordsRebuild(data[4..], data[3], None, stripes, first);
    var ps := Decode(data, stripes, first).value;
    assert data == data[..3] + [data[3]] + data[4..];
  }

  /** Encoding succeeds exactly for bundles, and its bytes decode to what was encoded. */
  lemma EncodeRoundTrips(packets: seq<Packet>, stripes: nat, first: bool)
    ensures Encode(packets, stripes, first).Some? <==> Bundle(packets, stripes, first)
    ensures Encode(packets, stripes, first).Some? ==>
              Decode(Encode(packets, stripes, first).value, stripes, first) == Some(packets)
  {
    hide Decode;
    if |packets| <= MAX_STRIPES {
      DecodeSerialized(packets, stripes, first);
    }
  }

  /** Every accepted byte string encodes back to itself. */
  lemma DecodeRoundTrips(data: Octets, stripes: nat, first: bool)
    requires Decode(data, stripes, first).Some?
    ensures Encode(Decode(data, stripes, first).value, stripes, first) == Some(data)
  {
    hide Decode, Serialize;
    DecodedIsSerialized(data, stripes, first);
  }

  // ----- what a bundle is, and how it is written -----

  lemma {:induction false} AdmissibleIff(packets: seq<Packet>, last: Option<Byte>, stripes: nat, first: bool)
    ensures AdmissibleAll(packets, last, stripes, first) <==>
            && (forall i :: 0 <= i < |packets| ==>
                  packets[i].index < stripes && StartsNal(packets[i].data) && (first ==> packets[i].keyframe))
            && (forall i, j :: 0 <= i < j < |packets| ==> packets[i].index < packets[j].index)
            && (last.Some? && packets != [] ==> last.value < packets[0].index)
  {
    hide StartsNal;
    if packets != [] {
      var rest := packets[1..];
      AdmissibleIff(rest, Some(packets[0].index), stripes, first);
      assert forall i :: 0 < i < |packets| ==> packets[i] == rest[i - 1];
      assert AdmissibleAll(rest, Some(packets[0].index), stripes, first) && rest != [] ==> packets[0].index < packets[1].index;
    }
  }

  lemma {:induction false} RecordsSize(packets: seq<Packet>)
    ensures |Records(packets)| == 6 * |packets| + DataSize(packets)
  {
    if packets != [] {
      RecordsSize(packets[1..]);
    }
  }

  function DataSize(packets: seq<Packet>): nat {
    if packets == [] then 0 else |packets[0].data| + DataSize(packets[1..])
  }

  /**
   A bundle is one or two packets of distinct stripes in ascending order, each an Annex B
   payload; at the start of a group it has a key of every stripe; and it is at most 4 MiB.
   */
  lemma BundleIff(packets: seq<Packet>, stripes: nat, first: bool)
    ensures Bundle(packets, stripes, first) <==>
            && 1 <= stripes <= 2 && 1 <= |packets| <= stripes
            && (first ==> |packets| == stripes && forall i :: 0 <= i < |packets| ==> packets[i].keyframe)
            && (forall i :: 0 <= i < |packets| ==> packets[i].index < stripes && StartsNal(packets[i].data))
            && (forall i, j :: 0 <= i < j < |packets| ==> packets[i].index < packets[j].index)
            && 4 + 6 * |packets| + DataSize(packets) <= 4 * 1024 * 1024
  {
    hide StartsNal, AdmissibleAll, Records, DataSize;
    AdmissibleIff(packets, None, stripes, first);
    RecordsSize(packets);
  }

  /** An Annex B payload begins with three or four bytes: zeros and a one. */
  lemma StartCodeIff(data: Octets)
    ensures StartsNal(data) <==>
            || (|data| >= 3 && data[0] == 0 && data[1] == 0 && data[2] == 1)
            || (|data| >= 4 && data[0] == 0 && data[1] == 0 && data[2] == 0 && data[3] == 1)
  {
    if |data| >= 4 {
      assert data[..4] == [data[0], data[1], data[2], data[3]];
    }
    if |data| >= 3 {
      assert data[..3] == [data[0], data[1], data[2]];
    }
  }

  /** A packet on the wire: its stripe, whether it is a key, four bytes of length, and the payload. */
  lemma RecordLayout(p: Packet)
    requires |p.data| <= MAX_BUNDLE
    ensures var r := Record(p);
            && |r| == 6 + |p.data| && r[0] == p.index && r[1] == (if p.keyframe then 1 else 0) && r[6..] == p.data
            && Quad(r[2], r[3], r[4], r[5]) == |p.data|
  {
    hide ToBytes;
    FourBytes(|p.data|);
    assert Record(p)[2..6] == ToBytes(|p.data|, 4);
    var four := ToBytes(|p.data|, 4);
    assert Record(p)[2] == four[0] && Record(p)[3] == four[1] && Record(p)[4] == four[2] && Record(p)[5] == four[3];
  }

  /** A bundle on the wire begins with `RS`, version 2 and its number of packets. */
  lemma BundleLayout(packets: seq<Packet>)
    requires |packets| < 256
    ensures var b := Serialize(packets);
            |b| >= 4 && b[0] == 0x52 && b[1] == 0x53 && b[2] == 2 && b[3] == |packets| && b[4..] == Records(packets)
  {
    hide Records;
  }

  // ----- no accepted string is a prefix of another -----

  lemma RecordHeads(p: Packet, q: Packet, a: Octets, b: Octets)
    requires |p.data| <= MAX_BUNDLE && |q.data| <= MAX_BUNDLE && Record(p) + a == Record(q) + b
    ensures p == q && a == b
  {
    var whole := Record(p) + a;
    Widths();
    ReadsBack(|p.data|, 4);
    ReadsBack(|q.data|, 4);
    assert whole[2..6] == ToBytes(|p.data|, 4) == ToBytes(|q.data|, 4);
    assert whole[0] == p.index == q.index && whole[1] == (if p.keyframe then 1 else 0) == (if q.keyframe then 1 else 0);
    assert whole[6..6 + |p.data|] == p.data == q.data;
    assert whole[6 + |p.data|..] == a == b;
  }

  lemma {:induction false} RecordsDetermine(ps: seq<Packet>, qs: seq<Packet>, more: Octets)
    requires |ps| == |qs| && Records(ps) + more == Records(qs) && |Records(qs)| <= MAX_BUNDLE
    ensures more == []
  {
    hide Record;
    if ps == [] {
      assert Records(ps) + more == more;
    } else {
      var a, b := Records(ps[1..]) + more, Records(qs[1..]);
      assert Record(ps[0]) + a == Record(qs[0]) + b;
      DataFits(ps[0]);
      DataFits(qs[0]);
      RecordHeads(ps[0], qs[0], a, b);
      RecordsDetermine(ps[1..], qs[1..], more);
    }
  }

  /** A bundle never continues another: whatever the negotiated stripes and the position in the group. */
  lemma AcceptedIsPrefixFree(data: Octets, more: Octets, stripes: nat, first: bool, otherStripes: nat, otherFirst: bool)
    requires Decode(data, stripes, first).Some? && Decode(data + more, otherStripes, otherFirst).Some?
    ensures more == []
  {
    hide Decode, Records;
    DecodedIsSerialized(data, stripes, first);
    DecodedIsSerialized(data + more, otherStripes, otherFirst);
    var ps, qs := Decode(data, stripes, first).value, Decode(data + more, otherStripes, otherFirst).value;
    SerializedParts(ps);
    SerializedParts(qs);
    assert (data + more)[4..] == data[4..] + more && (data + more)[3] == data[3];
    RecordsDetermine(ps, qs, more);
  }

  // ----- the codec as loops -----

  function Prepended(packets: seq<Packet>, rest: Option<seq<Packet>>): Option<seq<Packet>> {
    if rest.None? then None else Some(packets + rest.value)
  }

  lemma ReadOne(packets: seq<Packet>, data: Octets, offset: nat, n: nat, last: Option<Byte>, stripes: nat, first: bool)
    requires offset <= |data| && n > 0
    ensures var p := ReadRecord(data[offset..], last, stripes, first);
            Prepended(packets, ReadRecords(data[offset..], n, last, stripes, first)) ==
              if p.None? then None
              else Prepended(packets + [p.value], ReadRecords(data[offset + |Record(p.value)|..], n - 1, Some(p.value.index), stripes, first))
  {
    hide ReadRecord, Record;
    var p := ReadRecord(data[offset..], last, stripes, first);
    if p.Some? {
      assert data[offset..][|Record(p.value)|..] == data[offset + |Record(p.value)|..];
      var rest := ReadRecords(data[offset + |Record(p.value)|..], n - 1, Some(p.value.index), stripes, first);
      if rest.Some? {
        assert packets + ([p.value] + rest.value) == packets + [p.value] + rest.value;
      }
    }
  }

  method DecodeBundle(data: Octets, stripes: nat, first: bool) returns (r: Option<seq<Packet>>)
    ensures r == Decode(data, stripes, first)
  {
    hide ReadRecord, Record;
    if !(1 <= stripes <= MAX_STRIPES) || |data| > MAX_BUNDLE || |data| < 4 || data[..3] != MAGIC {
      return None;
    }
    var count := data[3];
    if count == 0 || count > stripes || (first && count != stripes) {
      return None;
    }
    var packets, offset: nat, last := [], 4, None;
    assert Decode(data, stripes, first).Some? ==> [] + Decode(data, stripes, first).value == Decode(data, stripes, first).value;
    for i := 0 to count
      invariant 4 <= offset <= |data|
      invariant Decode(data, stripes, first) ==
                Prepended(packets, ReadRecords(data[offset..], count - i, last, stripes, first))
    {
      ReadOne(packets, data, offset, count - i, last, stripes, first);
      var p := ReadRecord(data[offset..], last, stripes, first);
      if p.None? {
        return None;
      }
      packets, last := packets + [p.value], Some(p.value.index);
      offset := offset + |Record(p.value)|;
    }
    assert packets + [] == packets;
    r := if offset == |data| then Some(packets) else None;
  }

  method EncodeBundle(packets: seq<Packet>, stripes: nat, first: bool) returns (r: Option<Octets>)
    ensures r == Encode(packets, stripes, first)
  {
    hide Record, Decode;
    if packets == [] || |packets| > MAX_STRIPES {
      return None;
    }
    var size := 4;
    for i := 0 to |packets|
      invariant size == 4 + |Records(packets[..i])|
    {
      RecordsLast(packets[..i], packets[i]);
      assert packets[..i + 1] == packets[..i] + [packets[i]];
      size := size + 6 + |packets[i].data|;
    }
    assert packets[..|packets|] == packets;
    if size > MAX_BUNDLE {
      return None;
    }
    var bytes := MAGIC + [|packets|];
    for i := 0 to |packets|
      invariant bytes == MAGIC + [|packets|] + Records(packets[..i])
    {
      RecordsLast(packets[..i], packets[i]);
      assert packets[..i + 1] == packets[..i] + [packets[i]];
      bytes := bytes + Record(packets[i]);
    }
    var check := DecodeBundle(bytes, stripes, first);
    r := if check.None? then None else Some(bytes);
  }

  lemma {:induction false} RecordsLast(packets: seq<Packet>, p: Packet)
    ensures Records(packets + [p]) == Records(packets) + Record(p)
    ensures |Record(p)| == 6 + |p.data|
  {
    if packets == [] {
      assert packets + [p] == [p];
      assert Records([p]) == Record(p) + Records([]);
    } else {
      assert (packets + [p])[1..] == packets[1..] + [p];
      RecordsLast(packets[1..], p);
    }
  }

  // ----- layouts -----

  /** The least multiple of 16 that is at least an even share of the height. */
  predicate AlignedShare(h: nat, height: nat, count: nat) {
    h % 16 == 0 && count * h >= height && (h >= 16 ==> count * (h - 16) < height)
  }

  function Share(height: nat, count: nat): nat
    requires 1 <= count <= MAX_STRIPES
  {
    ((if count == 1 then height else (height + 1) / 2) + 15) / 16 * 16
  }

  lemma ShareFacts(height: nat, count: nat)
    requires height > 0 && 1 <= count <= MAX_STRIPES
    ensures var each := Share(height, count);
            && each > 0 && each % 16 == 0 && AlignedShare(each, height, count)
            && (count == 1 ==> height <= each) && height <= 2 * each && (count == 2 && height > 16 ==> each < height)
  {
    var share := if count == 1 then height else (height + 1) / 2;
    assert share <= Share(height, count) < share + 16;
  }

  /** An aligned split of the height: always a layout, never more stripes than asked for. */
  method MakeLayout(height: nat, count: nat) returns (r: Option<seq<Stripe>>)
    ensures r.Some? <==> 0 < height <= MAX_HEIGHT && height % 2 == 0 && 1 <= count <= MAX_STRIPES
    ensures r.Some? ==> Layout(height, r.value) && |r.value| <= count
    ensures r.Some? ==> forall i :: 0 <= i < |r.value| - 1 ==> AlignedShare(r.value[i].height, height, count)
    ensures r.Some? && |r.value| < count ==> height <= 16
  {
    hide AlignedShare, Share;
    if height == 0 || height > MAX_HEIGHT || height % 2 != 0 || !(1 <= count <= MAX_STRIPES) {
      return None;
    }
    var each := Share(height, count);
    ShareFacts(height, count);
    var stripes: seq<Stripe>, y := [], 0;
    while y < height
      invariant |stripes| <= count && y == if stripes == [] then 0 else if |stripes| == 1 then Min(each, height) else height
      invariant Stacked(stripes, 0, y)
      invariant forall i :: 0 <= i < |stripes| ==> stripes[i].height == each || (i == |stripes| - 1 && y == height)
      decreases height - y
    {
      var h := Min(each, height - y);
      StackedOn(stripes, 0, y, Stripe(y, h));
      stripes := stripes + [Stripe(y, h)];
      y := y + h;
    }
    r := Some(stripes);
  }

  lemma {:induction false} StackedOn(stripes: seq<Stripe>, y: nat, end: nat, s: Stripe)
    requires Stacked(stripes, y, end)
    requires s.y == end && end % 2 == 0 && s.height > 0 && s.height % 2 == 0
    ensures Stacked(stripes + [s], y, end + s.height)
  {
    if stripes == [] {
      assert (stripes + [s])[1..] == [];
    } else {
      assert (stripes + [s])[1..] == stripes[1..] + [s];
      StackedOn(stripes[1..], y + stripes[0].height, end, s);
    }
  }

  lemma {:induction false} StackGrows(stripes: seq<Stripe>, y: nat, height: nat)
    requires Stacked(stripes, y, height)
    ensures y <= height && (stripes != [] ==> y < height)
  {
    if stripes != [] {
      StackGrows(stripes[1..], y + stripes[0].height, height);
    }
  }

  /** A layout: one or two even, nonempty stripes that follow one another from the top to the full height. */
  lemma LayoutIff(height: nat, stripes: seq<Stripe>)
    ensures Layout(height, stripes) <==>
            && 1 <= |stripes| <= 2 && 0 < height <= 2160
            && stripes[0].y == 0 && stripes[|stripes| - 1].y + stripes[|stripes| - 1].height == height
            && (forall i :: 0 <= i < |stripes| ==> stripes[i].height > 0 && stripes[i].y % 2 == 0 && stripes[i].height % 2 == 0)
            && (forall i :: 0 <= i < |stripes| - 1 ==> stripes[i].y + stripes[i].height == stripes[i + 1].y)
  {
    if |stripes| == 1 {
      assert stripes[1..] == [];
      assert Stacked(stripes[1..], stripes[0].height, height) <==> stripes[0].height == height;
    } else if |stripes| == 2 {
      var rest, s, t := stripes[1..], stripes[0], stripes[1];
      assert rest == [t] && rest[1..] == [];
      assert Stacked(rest[1..], s.height + t.height, height) <==> s.height + t.height == height;
      assert Stacked(rest, s.height, height) <==>
             t.y == s.height && s.height % 2 == 0 && t.height > 0 && t.height % 2 == 0 && s.height + t.height == height;
    }
  }

  method ValidLayout(height: nat, stripes: seq<Stripe>) returns (ok: bool)
    ensures ok == Layout(height, stripes)
  {
    if stripes == [] || |stripes| > MAX_STRIPES || height == 0 || height > MAX_HEIGHT {
      return false;
    }
    var end: nat := 0;
    for i := 0 to |stripes|
      invariant end <= height
      invariant Stacked(stripes, 0, height) == Stacked(stripes[i..], end, height)
    {
      var s := stripes[i];
      assert stripes[i..][1..] == stripes[i + 1..];
      if s.y != end || s.y % 2 != 0 || s.height == 0 || s.height % 2 != 0 {
        return false;
      }
      if end + s.height > height {
        if Stacked(stripes[i..], end, height) {
          StackGrows(stripes[i + 1..], end + s.height, height);
        }
        return false;
      }
      end := end + s.height;
    }
    ok := end == height;
  }

  // ----- shares of a rate -----

  function Total(shares: seq<nat>): nat {
    if shares == [] then 0 else shares[0] + Total(shares[1..])
  }

  /** A share is within one unit of being proportional to the height of its stripe. */
  predicate Proportional(share: nat, total: nat, height: nat, s: Stripe) {
    total * s.height - height < share * height < total * s.height + height
  }

  lemma Floor(a: nat, height: nat)
    requires height > 0
    ensures a - height < a / height * height <= a
  {
    assert a == a / height * height + a % height;
  }

  lemma QuotientBelow(a: nat, height: nat, total: nat)
    requires height > 0 && a < total * height
    ensures a / height < total
  {
    Floor(a, height);
    if a / height >= total {
      TimesMonotone(total, a / height, height);
    }
  }

  lemma ShareIsPart(total: nat, height: nat, h: nat)
    requires 0 < h < height && total > 0
    ensures total * h / height < total
  {
    assert total * height == total * h + total * (height - h);
    QuotientBelow(total * h, height, total);
  }

  lemma ShareIsPositive(a: nat, height: nat)
    requires height > 0
    ensures a / height > 0 <==> a >= height
  {
    Floor(a, height);
    if a / height > 0 {
      TimesMonotone(1, a / height, height);
    }
  }

  lemma FloorShare(total: nat, height: nat, h: nat)
    requires 0 < h < height && total > 0
    ensures total * h / height < total
    ensures total * h / height > 0 <==> total * h >= height
    ensures total * h - height < total * h / height * height <= total * h
  {
    ShareIsPart(total, height, h);
    ShareIsPositive(total * h, height);
    Floor(total * h, height);
  }

  /** The aggregate is split without loss, every stripe gets something, and as its height demands. */
  method Rates(total: nat, height: nat, stripes: seq<Stripe>) returns (r: Option<seq<nat>>)
    ensures r.Some? <==>
            && Layout(height, stripes) && total >= |stripes|
            && (|stripes| == 2 ==> total * stripes[0].height >= height)
    ensures r.Some? ==> |r.value| == |stripes| && Total(r.value) == total
    ensures r.Some? ==> forall i :: 0 <= i < |stripes| ==>
              r.value[i] > 0 && Proportional(r.value[i], total, height, stripes[i])
  {
    hide Stacked, Total, Proportional;
    var ok := ValidLayout(height, stripes);
    if !ok || total < |stripes| {
      return None;
    }
    TwoStripes(height, stripes);
    if |stripes| == 2 {
      FloorShare(total, height, stripes[0].height);
    }
    var remaining, shares: seq<nat> := total, [];
    for i := 0 to |stripes|
      invariant i == |shares|
      invariant remaining == total - (if i > 0 then shares[0] else 0) - (if i > 1 then shares[1] else 0) >= 0
      invariant i == |stripes| ==> remaining == 0
      invariant i > 0 && |stripes| == 2 ==> shares[0] == total * stripes[0].height / height
      invariant i > 0 && |stripes| == 2 ==> total * stripes[0].height >= height
      invariant forall j :: 0 <= j < i ==> shares[j] > 0
    {
      var rate := if i + 1 == |stripes| then remaining else total * stripes[i].height / height;
      if rate == 0 || rate > remaining {
        return None;
      }
      remaining := remaining - rate;
      shares := shares + [rate];
    }
    SharesAreFair(total, height, stripes, shares);
    r := Some(shares);
  }

  lemma TwoStripes(height: nat, stripes: seq<Stripe>)
    requires Layout(height, stripes)
    ensures |stripes| == 1 ==> stripes[0].height == height
    ensures |stripes| == 2 ==> stripes[0].height + stripes[1].height == height && 0 < stripes[0].height < height
  {
    var rest := stripes[1..];
    assert Stacked(rest, stripes[0].height, height);
    if |stripes| == 2 {
      assert rest[0] == stripes[1];
      assert Stacked(rest[1..], stripes[0].height + stripes[1].height, height);
    }
  }

  /** The rest that the last stripe gets is as close to its share as the first part was. */
  lemma LastShare(total: nat, height: nat, h: nat, k: nat)
    requires 0 < h < height && h + k == height && total > 0
    ensures var q := total * h / height;
            q <= total && total * k <= (total - q) * height < total * k + height
  {
    FloorShare(total, height, h);
    var q := total * h / height;
    assert (total - q) * height == total * height - q * height;
    assert total * height == total * h + total * k;
  }

  lemma TotalOfOne(shares: seq<nat>)
    requires |shares| == 1
    ensures Total(shares) == shares[0]
  {
    assert shares[1..] == [];
  }

  lemma TotalOfTwo(shares: seq<nat>)
    requires |shares| == 2
    ensures Total(shares) == shares[0] + shares[1]
  {
    TotalOfOne(shares[1..]);
  }

  lemma WholeShareIsFair(total: nat, height: nat, s: Stripe)
    requires s.height == height > 0
    ensures Proportional(total, total, height, s)
  {
  }

  lemma TwoSharesAreFair(total: nat, height: nat, s: Stripe, t: Stripe)
    requires 0 < s.height < height && s.height + t.height == height && total > 0
    ensures var q := total * s.height / height;
            q <= total && Proportional(q, total, height, s) && Proportional(total - q, total, height, t)
  {
    LastShare(total, height, s.height, t.height);
    FloorShare(total, height, s.height);
  }

  lemma SharesAreFair(total: nat, height: nat, stripes: seq<Stripe>, shares: seq<nat>)
    requires Layout(height, stripes) && total > 0 && |shares| == |stripes|
    requires |shares| == 1 ==> shares[0] == total
    requires |shares| == 2 ==> shares[0] == total * stripes[0].height / height && shares[0] + shares[1] == total
    ensures Total(shares) == total
    ensures forall i :: 0 <= i < |stripes| ==> Proportional(shares[i], total, height, stripes[i])
  {
    hide Stacked, Total, Proportional;
    TwoStripes(height, stripes);
    if |stripes| == 2 {
      TwoSharesAreFair(total, height, stripes[0], stripes[1]);
      TotalOfTwo(shares);
    } else {
      WholeShareIsFair(total, height, stripes[0]);
      TotalOfOne(shares);
    }
  }

  // ----- regions -----

  lemma FrameSize(width: nat, height: nat)
    requires height % 2 == 0
    ensures width * height * 3 / 2 == RowStart(height, width) + RowStart(height / 2, width)
  {
    var half := height / 2;
    assert width * height == 2 * (width * half);
  }

  /** The two slices of the frame that make up a region. */
  lemma RegionSlices(pixels: Octets, width: nat, height: nat, s: Stripe)
    requires FrameShaped(pixels, width, height) && Inside(s, height)
    ensures var bottom, uv := s.y + s.height, RowStart(height, width) + RowStart(s.y / 2, width);
            var size := RowStart(s.height / 2, width);
            && RowStart(s.y, width) <= RowStart(bottom, width) <= |pixels| && uv + size <= |pixels|
            && Region(pixels, width, height, s) ==
               pixels[RowStart(s.y, width)..RowStart(bottom, width)] + pixels[uv..uv + size]
  {
    hide RowStart;
    var bottom := s.y + s.height;
    RowsGrow(s.y, bottom, width);
    RowsGrow(bottom, height, width);
    RowsGrow(s.y / 2, bottom / 2, width);
    RowsGrow(bottom / 2, height / 2, width);
    RowsAdd(s.y / 2, s.height / 2, width);
    assert bottom / 2 == s.y / 2 + s.height / 2;
  }

  lemma RowsAdd(r: nat, s: nat, width: nat)
    ensures RowStart(r + s, width) == RowStart(r, width) + RowStart(s, width)
  {
  }

  method Nv12Region(pixels: Octets, width: nat, height: nat, s: Stripe) returns (r: Option<Octets>)
    ensures r.Some? <==> FrameShaped(pixels, width, height) && Inside(s, height)
    ensures r.Some? ==> r.value == Region(pixels, width, height, s)
  {
    hide RowStart, Region;
    if width == 0 || width > 3840 || width % 2 != 0 || height == 0 || height > MAX_HEIGHT || height % 2 != 0 {
      return None;
    }
    FrameSize(width, height);
    if s.y % 2 != 0 || s.height == 0 || s.height % 2 != 0 || s.y + s.height > height
       || |pixels| != width * height * 3 / 2 {
      return None;
    }
    RegionSlices(pixels, width, height, s);
    var uv := RowStart(height, width) + RowStart(s.y / 2, width);
    r := Some(pixels[RowStart(s.y, width)..RowStart(s.y + s.height, width)] +
              pixels[uv..uv + RowStart(s.height / 2, width)]);
  }

  lemma RowsMeet(plane: Octets, width: nat, top: nat, middle: nat, bottom: nat)
    requires top <= middle <= bottom && RowStart(bottom, width) <= |plane|
    ensures RowStart(middle, width) <= |plane|
    ensures Rows(plane, width, top, middle) + Rows(plane, width, middle, bottom) == Rows(plane, width, top, bottom)
  {
    hide RowStart;
    RowsGrow(top, middle, width);
    RowsGrow(middle, bottom, width);
  }

  lemma RegionSplits(pixels: Octets, width: nat, height: nat, s: Stripe)
    requires FrameShaped(pixels, width, height) && Inside(s, height)
    ensures RowStart(s.y + s.height, width) <= RowStart(height, width)
    ensures RowStart((s.y + s.height) / 2, width) <= RowStart(height / 2, width)
    ensures var cut, region := RowStart(s.height, width), Region(pixels, width, height, s);
            && cut <= |region|
            && region[..cut] == Rows(Luma(pixels, width, height), width, s.y, s.y + s.height)
            && region[cut..] == Rows(Chroma(pixels, width, height), width, s.y / 2, (s.y + s.height) / 2)
  {
    RowsGrow(s.y + s.height, height, width);
    RowsGrow((s.y + s.height) / 2, height / 2, width);
    assert RowStart(s.y + s.height, width) == RowStart(s.y, width) + RowStart(s.height, width);
  }

  predicate RegionsOf(pixels: Octets, width: nat, height: nat, stripes: seq<Stripe>, regions: seq<Octets>) {
    && FrameShaped(pixels, width, height) && |regions| == |stripes|
    && forall i :: 0 <= i < |stripes| ==> Inside(stripes[i], height) && regions[i] == Region(pixels, width, height, stripes[i])
  }

  lemma {:induction false} JoinedFrom(pixels: Octets, width: nat, height: nat, stripes: seq<Stripe>, regions: seq<Octets>, y: nat)
    requires RegionsOf(pixels, width, height, stripes, regions) && Stacked(stripes, y, height) && y % 2 == 0
    ensures y <= height
    ensures JoinLuma(regions, stripes, width) == Rows(Luma(pixels, width, height), width, y, height)
    ensures JoinChroma(regions, stripes, width) == Rows(Chroma(pixels, width, height), width, y / 2, height / 2)
  {
    hide RowStart, Region, Luma, Chroma, Inside;
    if stripes != [] {
      var s := stripes[0];
      StackGrows(stripes[1..], y + s.height, height);
      RegionSplits(pixels, width, height, s);
      RowsMeet(Luma(pixels, width, height), width, y, y + s.height, height);
      RowsMeet(Chroma(pixels, width, height), width, y / 2, (y + s.height) / 2, height / 2);
      JoinedFrom(pixels, width, height, stripes[1..], regions[1..], y + s.height);
    }
  }

  lemma {:induction false} StripesInside(stripes: seq<Stripe>, y: nat, height: nat, i: nat)
    requires Stacked(stripes, y, height) && i < |stripes|
    ensures Inside(stripes[i], height)
  {
    StackGrows(stripes[1..], y + stripes[0].height, height);
    if i > 0 {
      StripesInside(stripes[1..], y + stripes[0].height, height, i - 1);
    }
  }

  /** Every stripe of a layout has a region, and joining the regions plane by plane restores the frame. */
  lemma JoiningRestores(pixels: Octets, width: nat, height: nat, stripes: seq<Stripe>, regions: seq<Octets>)
    requires FrameShaped(pixels, width, height) && Layout(height, stripes)
    ensures forall i :: 0 <= i < |stripes| ==> Inside(stripes[i], height)
    ensures RegionsOf(pixels, width, height, stripes, regions) ==>
              JoinLuma(regions, stripes, width) + JoinChroma(regions, stripes, width) == pixels
  {
    hide Region;
    forall i | 0 <= i < |stripes| ensures Inside(stripes[i], height) {
      StripesInside(stripes, 0, height, i);
    }
    if RegionsOf(pixels, width, height, stripes, regions) {
      JoinedFrom(pixels, width, height, stripes, regions, 0);
    }
  }
}
