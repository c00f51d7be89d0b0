/** The codec as the program runs it: an output buffer that grows and a cursor that moves. */
module Cbor {
  import opened Basics
  import opened BigEndian
  import opened CborModel
  import opened CborProofs
  import opened CborTheorems
  import Utf8

  // ----- encoding -----

  class Output {
    var bytes: Octets

    constructor ()
      ensures bytes == []
    {
      bytes := [];
    }
  }

  method EncodeHead(major: nat, v: nat, out: Output)
    requires major < 8
    modifies out
    ensures out.bytes == old(out.bytes) + Head(major, v)
  {
    var prefix := 32 * major;
    if v < 24 {
      out.bytes := out.bytes + [prefix + v];
    } else if v <= 0xff {
      out.bytes := out.bytes + [prefix + 24] + ToBytes(v, 1);
    } else if v <= 0xffff {
      out.bytes := out.bytes + [prefix + 25] + ToBytes(v, 2);
    } else if v <= 0xffff_ffff {
      out.bytes := out.bytes + [prefix + 26] + ToBytes(v, 4);
    } else {
      out.bytes := out.bytes + [prefix + 27] + ToBytes(v, 8);
    }
  }

  method EncodeValue(v: Value, out: Output)
    modifies out
    ensures out.bytes == old(out.bytes) + Encode(v)
    decreases v, 1
  {
    hide Head, ToBytes;
    match v {
      case Null => out.bytes := out.bytes + [0xf6];
      case Bool(b) => out.bytes := out.bytes + [if b then 0xf5 else 0xf4];
      case U64(n) => EncodeHead(0, n, out);
      case I64(i) =>
        if i >= 0 {
          EncodeHead(0, i, out);
        } else {
          EncodeHead(1, -1 - i, out);
        }
      case F64(bits) => out.bytes := out.bytes + [0xfb] + ToBytes(bits, 8);
      case Bytes(bytes) =>
        EncodeHead(2, |bytes|, out);
        out.bytes := out.bytes + bytes;
      case Text(text) =>
        EncodeHead(3, |text|, out);
        out.bytes := out.bytes + text;
      case Array(items) =>
        EncodeHead(4, |items|, out);
        EncodeArray(items, out);
      case Map(entries) =>
        EncodeHead(5, |entries|, out);
        EncodeMap(entries, out);
    }
  }

  method EncodeArray(items: seq<Value>, out: Output)
    modifies out
    ensures out.bytes == old(out.bytes) + EncodeItems(items)
    decreases items, 0
  {
    hide Encode;
    for i := 0 to |items|
      invariant out.bytes == old(out.bytes) + EncodeItems(items[..i])
    {
      EncodeValue(items[i], out);
      EncodeItemsLast(items[..i + 1]);
      assert items[..i + 1][..i] == items[..i];
    }
    assert items[..|items|] == items;
  }

  method EncodeMap(entries: seq<Entry>, out: Output)
    modifies out
    ensures out.bytes == old(out.bytes) + EncodeEntries(entries)
    decreases entries, 0
  {
    hide Encode, Head;
    for i := 0 to |entries|
      invariant out.bytes == old(out.bytes) + EncodeEntries(entries[..i])
    {
      EncodeHead(0, entries[i].key, out);
      assert (entries decreases to entries[i]);
      EncodeValue(entries[i].value, out);
      EncodeEntriesLast(entries[..i + 1]);
      assert entries[..i + 1][..i] == entries[..i];
    }
    assert entries[..|entries|] == entries;
  }

  lemma {:induction false} EncodeItemsLast(items: seq<Value>)
    requires items != []
    ensures EncodeItems(items) == EncodeItems(items[..|items| - 1]) + Encode(items[|items| - 1])
  {
    hide Encode;
    if |items| == 1 {
      assert items[1..] == [];
    } else {
      EncodeItemsLast(items[1..]);
      assert items[1..][..|items| - 2] == items[..|items| - 1][1..];
    }
  }

  // ----- decoding -----

  datatype Result<+T> = Success(value: T) | Failure(error: Error)

  class Cursor {
    const data: Octets
    var pos: nat

    ghost predicate InBounds()
      reads this
    {
      pos <= |data|
    }

    /** What is left to read. */
    ghost function Rest(): Octets
      requires InBounds()
      reads this
    {
      data[pos..]
    }

    constructor (data: Octets)
      ensures this.data == data && pos == 0
    {
      this.data, pos := data, 0;
    }

    /** `read_exact`: all of the bytes or none. */
    method ReadExact(n: nat) returns (r: Result<Octets>)
      requires InBounds()
      modifies this
      ensures InBounds()
      ensures if n <= |old(Rest())| then r == Success(old(Rest())[..n]) && pos == old(pos) + n
              else r == Failure(UnexpectedEnd) && pos == old(pos)
    {
      if n > |data| - pos {
        return Failure(UnexpectedEnd);
      }
      assert data[pos..pos + n] == data[pos..][..n];
      r := Success(data[pos..pos + n]);
      pos := pos + n;
    }
  }

  /** The cursor read what the parser said it would. */
  ghost predicate Agrees<T(!new)>(p: Parsed<T>, r: Result<T>, from: nat, to: nat) {
    match p
    case Ok(value, used) => r == Success(value) && to == from + used
    case Err(error) => r == Failure(error)
  }

  method DecodeArgument(additional: nat, cursor: Cursor) returns (r: Result<nat>)
    requires cursor.InBounds()
    modifies cursor
    ensures cursor.InBounds()
    ensures Agrees(ParseArgument(additional, old(cursor.Rest())), r, old(cursor.pos), cursor.pos)
  {
    hide FromBytes;
    if additional < 24 {
      return Success(additional);
    }
    var width, least;
    match additional {
      case 24 => width, least := 1, 24;
      case 25 => width, least := 2, 0x100;
      case 26 => width, least := 4, 0x1_0000;
      case 27 => width, least := 8, 0x1_0000_0000;
      case _ => return Failure(UnsupportedType);
    }
    var bytes := cursor.ReadExact(width);
    if bytes.Failure? {
      return Failure(bytes.error);
    }
    var v := FromBytes(bytes.value);
    if v < least {
      return Failure(NonCanonicalInteger);
    }
    r := Success(v);
  }

  method DecodeValueAt(cursor: Cursor, depth: nat) returns (r: Result<Value>)
    requires cursor.InBounds()
    modifies cursor
    ensures cursor.InBounds()
    ensures Agrees(Decode(old(cursor.Rest()), depth), r, old(cursor.pos), cursor.pos)
    decreases Room(depth), 0, 1
  {
    hide ParseArgument, ParseBody, FromBytes;
    if depth > MAX_DEPTH {
      return Failure(LengthTooLarge);
    }
    var first := cursor.ReadExact(1);
    if first.Failure? {
      return Failure(first.error);
    }
    var initial := first.value[0];
    var major, additional := initial / 32, initial % 32;
    ghost var b := old(cursor.Rest());
    assert cursor.Rest() == b[1..];
    if major == 7 {
      assert b == [initial] + b[1..];
      r := DecodeSimple(initial, cursor);
      assert |b| >= 9 ==> b[1..9] == b[1..][..8];
      return;
    }
    if major == 6 {
      return Failure(UnsupportedType);
    }
    var argument := DecodeArgument(additional, cursor);
    if argument.Failure? {
      return Failure(argument.error);
    }
    ghost var a := ParseArgument(additional, b[1..]);
    assert cursor.Rest() == b[1 + a.used..];
    r := DecodeBody(major, argument.value, cursor, 1 + a.used, depth);
  }

  method DecodeSimple(initial: Byte, cursor: Cursor) returns (r: Result<Value>)
    requires cursor.InBounds() && cursor.pos > 0 && initial / 32 == 7
    modifies cursor
    ensures cursor.InBounds()
    ensures Agrees(ParseSimple([initial] + old(cursor.Rest())), r, old(cursor.pos) - 1, cursor.pos)
  {
    hide FromBytes;
    match initial % 32 {
      case 20 => r := Success(Bool(false));
      case 21 => r := Success(Bool(true));
      case 22 => r := Success(Null);
      case 27 =>
        var bytes := cursor.ReadExact(8);
        if bytes.Failure? {
          return Failure(bytes.error);
        }
        assert ([initial] + old(cursor.Rest()))[1..9] == bytes.value;
        r := Success(F64(FromBytes(bytes.value)));
      case _ => r := Failure(UnsupportedType);
    }
  }

  /** The decoder's view of a parsed body: maps in key order. */
  ghost function Normalized(p: Parsed<Value>): Parsed<Value> {
    if p.Ok? then Ok(Normal(p.value), p.used) else p
  }

  method DecodeBody(major: nat, n: nat, cursor: Cursor, ghost taken: nat, depth: nat) returns (r: Result<Value>)
    requires cursor.InBounds() && major < 6 && taken > 0 && depth <= MAX_DEPTH && taken <= cursor.pos
    modifies cursor
    ensures cursor.InBounds()
    ensures Agrees(Normalized(ParseBody(major, n, old(cursor.Rest()), taken, depth)), r, old(cursor.pos) - taken, cursor.pos)
    decreases Room(depth), 0, 0
  {
    hide ParseItems, ParseEntries, Utf8.Valid;
    if major == 0 {
      return Success(U64(n));
    }
    if major == 1 {
      if n > 0x7fff_ffff_ffff_ffff {
        return Failure(LengthTooLarge);
      }
      return Success(I64(-1 - n));
    }
    // Never allocate for a declared length that was not received.
    if n > |cursor.data| - cursor.pos {
      return Failure(UnexpectedEnd);
    }
    if major == 2 {
      var bytes := cursor.ReadExact(n);
      r := Success(Bytes(bytes.value));
    } else if major == 3 {
      var bytes := cursor.ReadExact(n);
      r := if Utf8.Valid(bytes.value) then Success(Text(bytes.value)) else Failure(InvalidUtf8);
    } else if major == 4 {
      r := DecodeArray(cursor, depth + 1, n);
    } else {
      r := DecodeMap(cursor, depth + 1, n);
    }
  }

  /** What a loop that has read `done` so far still owes: the parse of the rest, prepended. */
  ghost function Continued<T>(done: seq<T>, used: nat, rest: Parsed<seq<T>>): Parsed<seq<T>> {
    if rest.Ok? then Ok(done + rest.value, used + rest.used) else rest
  }

  lemma {:induction false} NormalItemsLast(items: seq<Value>, v: Value)
    ensures NormalItems(items + [v]) == NormalItems(items) + [Normal(v)]
  {
    hide Normal;
    if items == [] {
      assert items + [v] == [v];
    } else {
      assert (items + [v])[1..] == items[1..] + [v];
      NormalItemsLast(items[1..], v);
    }
  }

  lemma {:induction false} NormalEntriesLast(entries: seq<Entry>, e: Entry)
    ensures NormalEntries(entries + [e]) == NormalEntries(entries) + [Entry(e.key, Normal(e.value))]
  {
    hide Normal;
    if entries == [] {
      assert entries + [e] == [e];
    } else {
      assert (entries + [e])[1..] == entries[1..] + [e];
      NormalEntriesLast(entries[1..], e);
    }
  }

  method DecodeArray(cursor: Cursor, depth: nat, n: nat) returns (r: Result<Value>)
    requires cursor.InBounds() && depth > 0
    modifies cursor
    ensures cursor.InBounds()
    ensures var p := ParseItems(old(cursor.Rest()), depth, n);
            Agrees(if p.Ok? then Ok(Array(NormalItems(p.value)), p.used) else Err(p.error), r, old(cursor.pos), cursor.pos)
    decreases Room(depth), 1, n
  {
    hide Parse, Normal;
    var items := [];
    ghost var raw, start := [], cursor.pos;
    ghost var whole := ParseItems(cursor.Rest(), depth, n);
    assert whole == Continued([], 0, whole) by {
      if whole.Ok? {
        assert [] + whole.value == whole.value;
      }
    }
    for i := 0 to n
      invariant cursor.InBounds() && start <= cursor.pos
      invariant whole == Continued(raw, cursor.pos - start, ParseItems(cursor.Rest(), depth, n - i))
      invariant items == NormalItems(raw)
    {
      ghost var b := cursor.Rest();
      ghost var first := Parse(b, depth);
      var item := DecodeValueAt(cursor, depth);
      if item.Failure? {
        return Failure(item.error);
      }
      assert cursor.Rest() == b[first.used..];
      NormalItemsLast(raw, first.value);
      items := items + [item.value];
      assert forall tail: seq<Value> :: raw + ([first.value] + tail) == raw + [first.value] + tail;
      raw := raw + [first.value];
    }
    assert raw + [] == raw;
    r := Success(Array(items));
  }

  predicate HasKey(table: seq<Entry>, key: nat) {
    exists i :: 0 <= i < |table| && table[i].key == key
  }

  lemma InsertKeys(table: seq<Entry>, e: Entry, key: nat)
    requires Ascending(table) && !HasKey(table, e.key)
    ensures Ascending(Insert(table, e))
    ensures HasKey(Insert(table, e), key) <==> HasKey(table, key) || key == e.key
  {
    hide Insert;
    InsertAscends(table, e);
    var t := Insert(table, e);
    assert forall x :: x in t <==> x in multiset(t);
    assert forall x :: x in table <==> x in multiset(table);
    if HasKey(t, key) {
      var i :| 0 <= i < |t| && t[i].key == key;
      assert t[i] in t;
      if t[i] != e {
        assert t[i] in table;
      }
    }
    if HasKey(table, key) {
      var i :| 0 <= i < |table| && table[i].key == key;
      assert table[i] in t;
    }
    assert e in t;
  }

  /** The table holds the entries listed so far, in key order. */
  ghost predicate Tabulates(table: seq<Entry>, raw: seq<Entry>, seen: set<nat>) {
    && table == Sort(NormalEntries(raw)) && Ascending(table)
    && forall key :: key in seen <==> HasKey(table, key)
  }

  lemma EmptyTable()
    ensures Tabulates([], [], {})
  {
  }

  lemma TableIsSorted(table: seq<Entry>, raw: seq<Entry>, seen: set<nat>)
    requires Tabulates(table, raw, seen)
    ensures table == Sort(NormalEntries(raw))
  {
  }

  lemma TableGrows(table: seq<Entry>, raw: seq<Entry>, seen: set<nat>, e: Entry)
    requires Tabulates(table, raw, seen) && !HasKey(table, e.key)
    ensures Tabulates(Insert(table, Entry(e.key, Normal(e.value))), raw + [e], seen + {e.key})
  {
    hide Normal, Insert;
    var stored := Entry(e.key, Normal(e.value));
    NormalEntriesLast(raw, e);
    assert NormalEntries(raw + [e])[..|raw|] == NormalEntries(raw);
    forall key
      ensures Ascending(Insert(table, stored))
      ensures HasKey(Insert(table, stored), key) <==> HasKey(table, key) || key == e.key
    {
      InsertKeys(table, stored, key);
    }
    InsertKeys(table, stored, 0);
  }

  method DecodeMap(cursor: Cursor, depth: nat, n: nat) returns (r: Result<Value>)
    requires cursor.InBounds() && depth > 0
    modifies cursor
    ensures cursor.InBounds()
    ensures var p := ParseEntries(old(cursor.Rest()), depth, n, {});
            Agrees(if p.Ok? then Ok(Map(Sort(NormalEntries(p.value))), p.used) else Err(p.error), r, old(cursor.pos), cursor.pos)
    decreases Room(depth), 1, n
  {
    hide Parse, Normal, ParseEntry, Insert, Tabulates, HasKey;
    var table := [];
    ghost var raw: seq<Entry>, seen: set<nat>, start := [], {}, cursor.pos;
    ghost var whole := ParseEntries(cursor.Rest(), depth, n, {});
    EmptyTable();
    assert whole == Continued([], 0, whole) by {
      if whole.Ok? {
        assert [] + whole.value == whole.value;
      }
    }
    for i := 0 to n
      invariant cursor.InBounds() && start <= cursor.pos
      invariant whole == Continued(raw, cursor.pos - start, ParseEntries(cursor.Rest(), depth, n - i, seen))
      invariant Tabulates(table, raw, seen)
    {
      ghost var b := cursor.Rest();
      ghost var p := ParseEntry(b, depth, seen);
      var e := DecodeEntry(cursor, depth, table, seen);
      if e.Failure? {
        return Failure(e.error);
      }
      assert cursor.Rest() == b[p.used..];
      TableGrows(table, raw, seen, p.value);
      table := Insert(table, e.value);
      assert forall tail: seq<Entry> :: raw + ([p.value] + tail) == raw + [p.value] + tail;
      raw, seen := raw + [p.value], seen + {p.value.key};
    }
    assert raw + [] == raw;
    TableIsSorted(table, raw, seen);
    r := Success(Map(table));
  }

  method DecodeEntry(cursor: Cursor, depth: nat, table: seq<Entry>, ghost seen: set<nat>) returns (r: Result<Entry>)
    requires cursor.InBounds() && depth > 0
    requires exists raw :: Tabulates(table, raw, seen)
    modifies cursor
    ensures cursor.InBounds()
    ensures var p := ParseEntry(old(cursor.Rest()), depth, seen);
            Agrees(if p.Ok? then Ok(Entry(p.value.key, Normal(p.value.value)), p.used) else p, r, old(cursor.pos), cursor.pos)
    ensures r.Success? ==> !HasKey(table, r.value.key)
    decreases Room(depth), 1, 0
  {
    hide Parse;
    ghost var b := cursor.Rest();
    var key := DecodeValueAt(cursor, depth);
    if key.Failure? {
      return Failure(key.error);
    }
    if !key.value.U64? {
      return Failure(ExpectedUnsignedMapKey);
    }
    assert cursor.Rest() == b[Parse(b, depth).used..];
    var value := DecodeValueAt(cursor, depth);
    if value.Failure? {
      return Failure(value.error);
    }
    if HasKey(table, key.value.number) {
      return Failure(DuplicateMapKey);
    }
    r := Success(Entry(key.value.number, value.value));
  }
}
