/** What the codec promises: encoding and parsing are inverse, and parsing is stable under more input. */
module CborProofs {
  import opened Basics
  import opened BigEndian
  import opened CborModel
  import Utf8

  // ----- heads -----

  lemma InitialByte(major: nat, a: nat)
    requires a < 32
    ensures (32 * major + a) / 32 == major && (32 * major + a) % 32 == a
  {
  }

  lemma WideReads(v: nat, width: nat, least: nat, rest: Octets)
    requires least <= v < Pow256(width)
    ensures Wide(ToBytes(v, width) + rest, width, least) == Ok(v, width)
  {
    hide FromBytes, ToBytes, Pow256;
    ReadsBack(v, width);
    assert (ToBytes(v, width) + rest)[..width] == ToBytes(v, width);
  }

  /** What a head parses to, once its initial byte is known. */
  lemma InitialParses(major: nat, a: nat, tail: Octets, rest: Octets)
    requires major < 6 && a < 32
    ensures var b := [32 * major + a] + tail + rest;
            b[0] / 32 == major && b[0] % 32 == a && b[1..] == tail + rest && b[1 + |tail|..] == rest
  {
    InitialByte(major, a);
  }

  lemma HeadParses(major: nat, v: nat, rest: Octets)
    requires major < 6 && v <= U64_MAX
    ensures var h := Head(major, v);
            && (h + rest)[0] / 32 == major && (h + rest)[|h|..] == rest
            && ParseArgument((h + rest)[0] % 32, (h + rest)[1..]) == Ok(v, |h| - 1)
  {
    hide FromBytes, ToBytes, Pow256, Wide;
    Widths();
    if v < 24 {
      InitialParses(major, v, [], rest);
      assert [32 * major + v] + [] + rest == [32 * major + v] + rest;
    } else if v <= 0xff {
      InitialParses(major, 24, ToBytes(v, 1), rest);
      WideReads(v, 1, 24, rest);
    } else if v <= 0xffff {
      InitialParses(major, 25, ToBytes(v, 2), rest);
      WideReads(v, 2, 0x100, rest);
    } else if v <= 0xffff_ffff {
      InitialParses(major, 26, ToBytes(v, 4), rest);
      WideReads(v, 4, 0x1_0000, rest);
    } else {
      InitialParses(major, 27, ToBytes(v, 8), rest);
      WideReads(v, 8, 0x1_0000_0000, rest);
    }
  }

  lemma ArgumentRebuilds(b: Octets)
    requires b != [] && b[0] / 32 < 6 && ParseArgument(b[0] % 32, b[1..]).Ok?
    ensures var a := ParseArgument(b[0] % 32, b[1..]);
            a.value <= U64_MAX && 1 + a.used <= |b| && Head(b[0] / 32, a.value) == b[..1 + a.used]
  {
    Widths();
    var a := ParseArgument(b[0] % 32, b[1..]);
    assert b[..1 + a.used] == [b[0]] + b[1..][..a.used];
    FromBytesBound(b[1..][..a.used]);
    WritesBack(b[1..][..a.used]);
  }

  lemma ArgumentStable(additional: nat, b: Octets, more: Octets)
    requires ParseArgument(additional, b) != Err(UnexpectedEnd)
    ensures ParseArgument(additional, b + more) == ParseArgument(additional, b)
    ensures ParseArgument(additional, b).Ok? ==> ParseArgument(additional, b).used <= |b|
  {
    assert forall k :: 0 <= k <= |b| ==> (b + more)[..k] == b[..k];
  }

  // ----- parsing what was encoded -----

  /** Parsing an encoding returns the value and exactly its bytes, or notices that it nests too deep. */
  lemma {:induction false} ParseEncoded(v: Value, rest: Octets, depth: nat)
    requires Valid(v) && UnsignedForm(v)
    ensures Parse(Encode(v) + rest, depth) ==
            if depth + Depth(v) <= MAX_DEPTH then Ok(v, |Encode(v)|) else Err(LengthTooLarge)
    decreases v, 1
  {
    hide Head, Parse, ParseItems, ParseEntries;
    if depth > MAX_DEPTH {
      TooDeep(Encode(v) + rest, depth);
    } else {
      match v
      case Null => SimpleParses(v, rest, depth);
      case Bool(_) => SimpleParses(v, rest, depth);
      case F64(_) => SimpleParses(v, rest, depth);
      case U64(n) => NumberParses(n, rest, depth);
      case I64(i) => NegativeParses(i, rest, depth);
      case Bytes(bytes) => EncodedBody(2, |bytes|, bytes, rest, depth);
      case Text(text) => EncodedBody(3, |text|, text, rest, depth);
      case Array(items) =>
        EncodedBody(4, |items|, EncodeItems(items), rest, depth);
        ParseEncodedItems(items, rest, depth + 1);
      case Map(entries) =>
        EncodedBody(5, |entries|, EncodeEntries(entries), rest, depth);
        ParseEncodedEntries(entries, rest, depth + 1, {});
    }
  }

  lemma TooDeep(b: Octets, depth: nat)
    requires depth > MAX_DEPTH
    ensures Parse(b, depth) == Err(LengthTooLarge)
  {
  }

  lemma NegativeParses(i: int, rest: Octets, depth: nat)
    requires -0x8000_0000_0000_0000 <= i < 0 && depth <= MAX_DEPTH
    ensures Parse(Head(1, -1 - i) + rest, depth) == Ok(I64(i), |Head(1, -1 - i)|)
  {
    HeadParses(1, -1 - i, rest);
  }

  lemma SimpleParses(v: Value, rest: Octets, depth: nat)
    requires depth <= MAX_DEPTH && Valid(v) && (v.Null? || v.Bool? || v.F64?)
    ensures Parse(Encode(v) + rest, depth) == Ok(v, |Encode(v)|) && Depth(v) == 0
  {
    hide ParseBody, ParseArgument, Head;
    var b := Encode(v) + rest;
    if v.F64? {
      hide ToBytes, FromBytes, Pow256;
      Widths();
      ReadsBack(v.bits, 8);
      assert b[1..9] == ToBytes(v.bits, 8);
    }
  }

  lemma NumberParses(n: nat, rest: Octets, depth: nat)
    requires n <= U64_MAX
    ensures Parse(Head(0, n) + rest, depth) ==
            if depth <= MAX_DEPTH then Ok(U64(n), |Head(0, n)|) else Err(LengthTooLarge)
  {
    HeadParses(0, n, rest);
  }

  lemma EncodedBody(major: nat, n: nat, body: Octets, rest: Octets, depth: nat)
    requires 2 <= major < 6 && n <= U64_MAX && depth <= MAX_DEPTH
    ensures Parse(Head(major, n) + body + rest, depth) ==
            ParseBody(major, n, body + rest, |Head(major, n)|, depth)
    ensures n <= |body| ==> (body + rest)[..n] == body[..n]
  {
    HeadParses(major, n, body + rest);
    assert Head(major, n) + body + rest == Head(major, n) + (body + rest);
  }

  lemma {:induction false} ParseEncodedItems(items: seq<Value>, rest: Octets, depth: nat)
    requires ValidItems(items) && UnsignedItems(items)
    ensures ParseItems(EncodeItems(items) + rest, depth, |items|) ==
            if items == [] || depth + ItemsDepth(items) <= MAX_DEPTH then Ok(items, |EncodeItems(items)|)
            else Err(LengthTooLarge)
    decreases items, 0
  {
    if items != [] {
      var first, others := Encode(items[0]), EncodeItems(items[1..]);
      var b := EncodeItems(items) + rest;
      assert b == first + (others + rest);
      ParseEncoded(items[0], others + rest, depth);
      assert b[|first|..] == others + rest;
      ParseEncodedItems(items[1..], rest, depth);
      assert items == [items[0]] + items[1..];
    }
  }

  ghost predicate Unseen(entries: seq<Entry>, seen: set<nat>) {
    forall i :: 0 <= i < |entries| ==> entries[i].key !in seen
  }

  lemma {:induction false} ParseEncodedEntries(entries: seq<Entry>, rest: Octets, depth: nat, seen: set<nat>)
    requires ValidEntries(entries) && UnsignedEntries(entries) && DistinctKeys(entries) && Unseen(entries, seen)
    ensures ParseEntries(EncodeEntries(entries) + rest, depth, |entries|, seen) ==
            if entries == [] || depth + EntriesDepth(entries) <= MAX_DEPTH then Ok(entries, |EncodeEntries(entries)|)
            else Err(LengthTooLarge)
    decreases entries, 0
  {
    hide Parse, ParseEntry, Encode, Head, Valid, UnsignedForm;
    if entries != [] {
      assert (entries decreases to entries[0]);
      var e := entries[0];
      var one := Head(0, e.key) + Encode(e.value);
      var tail := EncodeEntries(entries[1..]) + rest;
      assert EncodeEntries(entries) + rest == one + tail;
      ParseEncodedEntry(e, tail, depth, seen);
      assert (one + tail)[|one|..] == tail;
      ParseEncodedEntries(entries[1..], rest, depth, seen + {e.key});
      assert entries == [e] + entries[1..];
    }
  }

  lemma {:induction false} ParseEncodedEntry(e: Entry, tail: Octets, depth: nat, seen: set<nat>)
    requires e.key <= U64_MAX && Valid(e.value) && UnsignedForm(e.value) && e.key !in seen
    ensures var one := Head(0, e.key) + Encode(e.value);
            ParseEntry(one + tail, depth, seen) ==
            if depth + Depth(e.value) <= MAX_DEPTH then Ok(e, |one|) else Err(LengthTooLarge)
    decreases e, 0
  {
    hide Encode, Head, Depth, Parse;
    var key, value := Head(0, e.key), Encode(e.value);
    var b := key + value + tail;
    assert b == key + (value + tail);
    NumberParses(e.key, value + tail, depth);
    assert b[|key|..] == value + tail;
    ParseEncoded(e.value, tail, depth);
  }

  // ----- encoding what was parsed -----

  /** Every accepted byte string is the encoding of what it parses to. */
  lemma {:induction false} ParseRebuilds(b: Octets, depth: nat)
    requires Parse(b, depth).Ok?
    ensures var p := Parse(b, depth);
            && Encode(p.value) == b[..p.used]
            && Valid(p.value) && UnsignedForm(p.value) && depth + Depth(p.value) <= MAX_DEPTH
    decreases Room(depth), 0, 1
  {
    hide Head, ParseBody, ParseArgument;
    if b[0] / 32 == 7 {
      SimpleRebuilds(b);
    } else {
      ArgumentRebuilds(b);
      var a := ParseArgument(b[0] % 32, b[1..]);
      BodyRebuilds(b[0] / 32, a.value, b[1 + a.used..], 1 + a.used, depth);
      var p := Parse(b, depth);
      assert b[..p.used] == b[..1 + a.used] + b[1 + a.used..][..p.used - (1 + a.used)];
    }
  }

  lemma SimpleRebuilds(b: Octets)
    requires b != [] && ParseSimple(b).Ok?
    ensures var p := ParseSimple(b);
            p.used <= |b| && Encode(p.value) == b[..p.used] && Valid(p.value) && UnsignedForm(p.value) && Depth(p.value) == 0
  {
    if b[0] == 0xfb {
      Widths();
      FromBytesBound(b[1..9]);
      WritesBack(b[1..9]);
      assert b[..9] == [b[0]] + b[1..9];
    }
  }

  lemma {:induction false} BodyRebuilds(major: nat, n: nat, b: Octets, taken: nat, depth: nat)
    requires major < 6 && n <= U64_MAX && taken > 0 && depth <= MAX_DEPTH && ParseBody(major, n, b, taken, depth).Ok?
    ensures var p := ParseBody(major, n, b, taken, depth);
            && Encode(p.value) == Head(major, n) + b[..p.used - taken]
            && Valid(p.value) && UnsignedForm(p.value) && depth + Depth(p.value) <= MAX_DEPTH
    decreases Room(depth), 0, 0
  {
    if major == 4 {
      ItemsRebuild(b, depth + 1, n);
    } else if major == 5 {
      EntriesRebuild(b, depth + 1, n, {});
    }
  }

  lemma {:induction false} ItemsRebuild(b: Octets, depth: nat, n: nat)
    requires ParseItems(b, depth, n).Ok?
    ensures var p := ParseItems(b, depth, n);
            && EncodeItems(p.value) == b[..p.used]
            && ValidItems(p.value) && UnsignedItems(p.value)
            && (n == 0 || depth + ItemsDepth(p.value) <= MAX_DEPTH)
    decreases Room(depth), 1, n
  {
    hide Parse, Encode, Head, Valid, UnsignedForm, Depth;
    if n != 0 {
      var first := Parse(b, depth);
      ParseRebuilds(b, depth);
      ItemsRebuild(b[first.used..], depth, n - 1);
      var p := ParseItems(b, depth, n);
      assert p.value[1..] == ParseItems(b[first.used..], depth, n - 1).value;
      assert b[..p.used] == b[..first.used] + b[first.used..][..p.used - first.used];
    }
  }

  lemma {:induction false} EntriesRebuild(b: Octets, depth: nat, n: nat, seen: set<nat>)
    requires ParseEntries(b, depth, n, seen).Ok?
    ensures var p := ParseEntries(b, depth, n, seen);
            && EncodeEntries(p.value) == b[..p.used]
            && ValidEntries(p.value) && UnsignedEntries(p.value)
            && DistinctKeys(p.value) && Unseen(p.value, seen)
            && (n == 0 || depth + EntriesDepth(p.value) <= MAX_DEPTH)
    decreases Room(depth), 1, n
  {
    hide Parse, ParseEntry, Encode, Head, Valid, UnsignedForm, Depth;
    if n != 0 {
      var e := ParseEntry(b, depth, seen);
      EntryRebuilds(b, depth, seen);
      EntriesRebuild(b[e.used..], depth, n - 1, seen + {e.value.key});
      var p := ParseEntries(b, depth, n, seen);
      assert p.value[1..] == ParseEntries(b[e.used..], depth, n - 1, seen + {e.value.key}).value;
      assert b[..p.used] == b[..e.used] + b[e.used..][..p.used - e.used];
    }
  }

  lemma {:induction false} EntryRebuilds(b: Octets, depth: nat, seen: set<nat>)
    requires ParseEntry(b, depth, seen).Ok?
    ensures var p := ParseEntry(b, depth, seen);
            && Head(0, p.value.key) + Encode(p.value.value) == b[..p.used]
            && p.value.key <= U64_MAX && p.value.key !in seen
            && Valid(p.value.value) && UnsignedForm(p.value.value) && depth + Depth(p.value.value) <= MAX_DEPTH
    decreases Room(depth), 1, 0
  {
    var key := Parse(b, depth);
    ParseRebuilds(b, depth);
    ParseRebuilds(b[key.used..], depth);
    var p := ParseEntry(b, depth, seen);
    assert b[..p.used] == b[..key.used] + b[key.used..][..p.used - key.used];
  }

  // ----- more input changes nothing but "need more" -----

  lemma {:induction false} ParseStable(b: Octets, more: Octets, depth: nat)
    requires Parse(b, depth) != Err(UnexpectedEnd)
    ensures Parse(b + more, depth) == Parse(b, depth)
    decreases Room(depth), 0, 1
  {
    if depth <= MAX_DEPTH {
      if b[0] / 32 == 7 {
        assert |b| >= 9 ==> (b + more)[1..9] == b[1..9];
      } else if b[0] / 32 != 6 {
        assert (b + more)[1..] == b[1..] + more;
        ArgumentStable(b[0] % 32, b[1..], more);
        var a := ParseArgument(b[0] % 32, b[1..]);
        if a.Ok? {
          assert (b + more)[1 + a.used..] == b[1 + a.used..] + more;
          BodyStable(b[0] / 32, a.value, b[1 + a.used..], more, 1 + a.used, depth);
        }
      }
    }
  }

  lemma {:induction false} BodyStable(major: nat, n: nat, b: Octets, more: Octets, taken: nat, depth: nat)
    requires taken > 0 && depth <= MAX_DEPTH && ParseBody(major, n, b, taken, depth) != Err(UnexpectedEnd)
    ensures ParseBody(major, n, b + more, taken, depth) == ParseBody(major, n, b, taken, depth)
    decreases Room(depth), 0, 0
  {
    if major >= 2 {
      assert (b + more)[..n] == b[..n];
      if major == 4 {
        ItemsStable(b, more, depth + 1, n);
      } else if major > 4 {
        EntriesStable(b, more, depth + 1, n, {});
      }
    }
  }

  lemma {:induction false} ItemsStable(b: Octets, more: Octets, depth: nat, n: nat)
    requires ParseItems(b, depth, n) != Err(UnexpectedEnd)
    ensures ParseItems(b + more, depth, n) == ParseItems(b, depth, n)
    decreases Room(depth), 1, n
  {
    hide Parse;
    if n != 0 {
      ParseStable(b, more, depth);
      var first := Parse(b, depth);
      if first.Ok? {
        assert (b + more)[first.used..] == b[first.used..] + more;
        ItemsStable(b[first.used..], more, depth, n - 1);
      }
    }
  }

  lemma {:induction false} EntriesStable(b: Octets, more: Octets, depth: nat, n: nat, seen: set<nat>)
    requires ParseEntries(b, depth, n, seen) != Err(UnexpectedEnd)
    ensures ParseEntries(b + more, depth, n, seen) == ParseEntries(b, depth, n, seen)
    decreases Room(depth), 1, n
  {
    hide ParseEntry, Parse;
    if n != 0 {
      EntryStable(b, more, depth, seen);
      var e := ParseEntry(b, depth, seen);
      if e.Ok? {
        assert (b + more)[e.used..] == b[e.used..] + more;
        EntriesStable(b[e.used..], more, depth, n - 1, seen + {e.value.key});
      }
    }
  }

  lemma {:induction false} EntryStable(b: Octets, more: Octets, depth: nat, seen: set<nat>)
    requires ParseEntry(b, depth, seen) != Err(UnexpectedEnd)
    ensures ParseEntry(b + more, depth, seen) == ParseEntry(b, depth, seen)
    decreases Room(depth), 1, 0
  {
    ParseStable(b, more, depth);
    var key := Parse(b, depth);
    if key.Ok? && key.value.U64? {
      assert (b + more)[key.used..] == b[key.used..] + more;
      ParseStable(b[key.used..], more, depth);
    }
  }
}
