/**
 The CBOR subset of the wire protocol (sections 3 and 4.2.1 of RFC 8949) as values
 and functions: the encoder, and a parser that keeps maps in the order they are
 listed in the bytes.
 */
module CborModel {
  import opened Basics
  import opened BigEndian
  import Utf8

  const MAX_DEPTH: nat := 64

  /** Maps are association lists; a decoded map is in ascending key order, as a `BTreeMap` iterates. */
  datatype Value =
    | Null
    | Bool(value: bool)
    | U64(number: nat)
    | I64(integer: int)
    | F64(bits: nat)
    | Bytes(bytes: Octets)
    | Text(text: Octets)
    | Array(items: seq<Value>)
    | Map(entries: seq<Entry>)

  datatype Entry = Entry(key: nat, value: Value)

  datatype Error =
    | UnexpectedEnd | UnsupportedType | NonCanonicalInteger | DuplicateMapKey
    | ExpectedUnsignedMapKey | TrailingBytes | InvalidUtf8 | LengthTooLarge

  /** A value and the number of bytes it took, or an error. */
  datatype Parsed<T> = Ok(value: T, used: nat) | Err(error: Error)

  // ----- encoding -----

  /** The initial byte and argument: the shortest form that holds the number. */
  function Head(major: nat, v: nat): (r: Octets)
    requires major < 8
    ensures r != []
  {
    if v < 24 then [32 * major + v]
    else if v <= 0xff then [32 * major + 24] + ToBytes(v, 1)
    else if v <= 0xffff then [32 * major + 25] + ToBytes(v, 2)
    else if v <= 0xffff_ffff then [32 * major + 26] + ToBytes(v, 4)
    else [32 * major + 27] + ToBytes(v, 8)
  }

  function Encode(v: Value): (r: Octets)
    ensures r != []
    decreases v, 1
  {
    match v
    case Null => [0xf6]
    case Bool(b) => [if b then 0xf5 else 0xf4]
    case U64(n) => Head(0, n)
    case I64(i) => if i >= 0 then Head(0, i) else Head(1, -1 - i)
    case F64(bits) => [0xfb] + ToBytes(bits, 8)
    case Bytes(bytes) => Head(2, |bytes|) + bytes
    case Text(text) => Head(3, |text|) + text
    case Array(items) => Head(4, |items|) + EncodeItems(items)
    case Map(entries) => Head(5, |entries|) + EncodeEntries(entries)
  }

  function EncodeItems(items: seq<Value>): (r: Octets)
    ensures |items| <= |r|
    decreases items, 0
  {
    if items == [] then [] else Encode(items[0]) + EncodeItems(items[1..])
  }

  function EncodeEntries(entries: seq<Entry>): (r: Octets)
    ensures |entries| <= |r|
    decreases entries, 0
  {
    if entries == [] then []
    else
      assert (entries decreases to entries[0]);
      Head(0, entries[0].key) + Encode(entries[0].value) + EncodeEntries(entries[1..])
  }

  // ----- parsing -----

  /** An argument of `width` bytes that must not fit a shorter form. */
  function Wide(b: Octets, width: nat, least: nat): Parsed<nat> {
    if |b| < width then Err(UnexpectedEnd)
    else if FromBytes(b[..width]) < least then Err(NonCanonicalInteger)
    else Ok(FromBytes(b[..width]), width)
  }

  function ParseArgument(additional: nat, b: Octets): Parsed<nat> {
    if additional < 24 then Ok(additional, 0)
    else if additional == 24 then Wide(b, 1, 24)
    else if additional == 25 then Wide(b, 2, 0x100)
    else if additional == 26 then Wide(b, 4, 0x1_0000)
    else if additional == 27 then Wide(b, 8, 0x1_0000_0000)
    else Err(UnsupportedType)
  }

  /** Fuel of the recursion: the nesting still allowed. */
  function Room(depth: nat): nat {
    if depth <= MAX_DEPTH then MAX_DEPTH + 1 - depth else 0
  }

  function Parse(b: Octets, depth: nat): (r: Parsed<Value>)
    ensures r.Ok? ==> 0 < r.used <= |b|
    decreases Room(depth), 0, 1
  {
    if depth > MAX_DEPTH then Err(LengthTooLarge)
    else if b == [] then Err(UnexpectedEnd)
    else if b[0] / 32 == 7 then ParseSimple(b)
    else if b[0] / 32 == 6 then Err(UnsupportedType)
    else
      var a := ParseArgument(b[0] % 32, b[1..]);
      if a.Err? then Err(a.error) else ParseBody(b[0] / 32, a.value, b[1 + a.used..], 1 + a.used, depth)
  }

  function ParseSimple(b: Octets): Parsed<Value>
    requires b != []
  {
    if b[0] == 0xf4 then Ok(Bool(false), 1)
    else if b[0] == 0xf5 then Ok(Bool(true), 1)
    else if b[0] == 0xf6 then Ok(Null, 1)
    else if b[0] == 0xfb then
      if |b| < 9 then Err(UnexpectedEnd) else Ok(F64(FromBytes(b[1..9])), 9)
    else Err(UnsupportedType)
  }

  /** What follows a head of `taken` bytes with major type `major` and argument `n`. */
  function ParseBody(major: nat, n: nat, b: Octets, taken: nat, depth: nat): (r: Parsed<Value>)
    requires depth <= MAX_DEPTH && taken > 0
    ensures r.Ok? ==> taken <= r.used <= taken + |b|
    decreases Room(depth), 0, 0
  {
    if major == 0 then Ok(U64(n), taken)
    else if major == 1 then if n > 0x7fff_ffff_ffff_ffff then Err(LengthTooLarge) else Ok(I64(-1 - n), taken)
    else if n > |b| then Err(UnexpectedEnd)
    else if major == 2 then Ok(Bytes(b[..n]), taken + n)
    else if major == 3 then if Utf8.Valid(b[..n]) then Ok(Text(b[..n]), taken + n) else Err(InvalidUtf8)
    else if major == 4 then
      var items := ParseItems(b, depth + 1, n);
      if items.Err? then Err(items.error) else Ok(Array(items.value), taken + items.used)
    else
      var entries := ParseEntries(b, depth + 1, n, {});
      if entries.Err? then Err(entries.error) else Ok(Map(entries.value), taken + entries.used)
  }

  function ParseItems(b: Octets, depth: nat, n: nat): (r: Parsed<seq<Value>>)
    ensures r.Ok? ==> r.used <= |b| && |r.value| == n
    decreases Room(depth), 1, n
  {
    if n == 0 then Ok([], 0)
    else
      var first := Parse(b, depth);
      if first.Err? then Err(first.error)
      else
        var rest := ParseItems(b[first.used..], depth, n - 1);
        if rest.Err? then rest else Ok([first.value] + rest.value, first.used + rest.used)
  }

  function ParseEntries(b: Octets, depth: nat, n: nat, seen: set<nat>): (r: Parsed<seq<Entry>>)
    ensures r.Ok? ==> r.used <= |b| && |r.value| == n
    decreases Room(depth), 1, n
  {
    if n == 0 then Ok([], 0)
    else
      var e := ParseEntry(b, depth, seen);
      if e.Err? then Err(e.error)
      else
        var rest := ParseEntries(b[e.used..], depth, n - 1, seen + {e.value.key});
        if rest.Err? then rest else Ok([e.value] + rest.value, e.used + rest.used)
  }

  /** A key, then its value; only then is a repeated key noticed. */
  function ParseEntry(b: Octets, depth: nat, seen: set<nat>): (r: Parsed<Entry>)
    ensures r.Ok? ==> 0 < r.used <= |b|
    decreases Room(depth), 1, 0
  {
    var key := Parse(b, depth);
    if key.Err? then Err(key.error)
    else if !key.value.U64? then Err(ExpectedUnsignedMapKey)
    else
      var value := Parse(b[key.used..], depth);
      if value.Err? then Err(value.error)
      else if key.value.number in seen then Err(DuplicateMapKey)
      else Ok(Entry(key.value.number, value.value), key.used + value.used)
  }

  // ----- maps as the decoder stores them -----

  /** Put an entry into an ascending list of entries. */
  function Insert(sorted: seq<Entry>, e: Entry): seq<Entry> {
    if sorted == [] then [e]
    else if e.key < sorted[0].key then [e] + sorted
    else [sorted[0]] + Insert(sorted[1..], e)
  }

  function Sort(entries: seq<Entry>): seq<Entry> {
    if entries == [] then [] else Insert(Sort(entries[..|entries| - 1]), entries[|entries| - 1])
  }

  /** A parsed value with every map in ascending key order. */
  function Normal(v: Value): Value
    decreases v, 1
  {
    match v
    case Array(items) => Array(NormalItems(items))
    case Map(entries) => Map(Sort(NormalEntries(entries)))
    case _ => v
  }

  function NormalItems(items: seq<Value>): (r: seq<Value>)
    ensures |r| == |items|
    decreases items, 0
  {
    if items == [] then [] else [Normal(items[0])] + NormalItems(items[1..])
  }

  function NormalEntries(entries: seq<Entry>): (r: seq<Entry>)
    ensures |r| == |entries|
    ensures forall i :: 0 <= i < |r| ==> r[i].key == entries[i].key
    decreases entries, 0
  {
    if entries == [] then []
    else
      assert (entries decreases to entries[0]);
      [Entry(entries[0].key, Normal(entries[0].value))] + NormalEntries(entries[1..])
  }

  /** The decoder: parse, with maps ordered by key. */
  function Decode(b: Octets, depth: nat): Parsed<Value> {
    var p := Parse(b, depth);
    if p.Ok? then Ok(Normal(p.value), p.used) else p
  }

  // ----- which values -----

  predicate Ascending(entries: seq<Entry>) {
    forall i, j :: 0 <= i < j < |entries| ==> entries[i].key < entries[j].key
  }

  predicate DistinctKeys(entries: seq<Entry>) {
    forall i, j :: 0 <= i < j < |entries| ==> entries[i].key != entries[j].key
  }

  /** A value in the ranges its Rust type has, maps without repeated keys. */
  predicate Valid(v: Value)
    decreases v, 1
  {
    match v
    case Null => true
    case Bool(_) => true
    case U64(n) => n <= U64_MAX
    case I64(i) => -0x8000_0000_0000_0000 <= i <= 0x7fff_ffff_ffff_ffff
    case F64(bits) => bits <= U64_MAX
    case Bytes(bytes) => |bytes| <= U64_MAX
    case Text(text) => |text| <= U64_MAX && Utf8.Valid(text)
    case Array(items) => |items| <= U64_MAX && ValidItems(items)
    case Map(entries) => |entries| <= U64_MAX && DistinctKeys(entries) && ValidEntries(entries)
  }

  predicate ValidItems(items: seq<Value>)
    decreases items, 0
  {
    items == [] || (Valid(items[0]) && ValidItems(items[1..]))
  }

  predicate ValidEntries(entries: seq<Entry>)
    decreases entries, 0
  {
    entries == [] ||
    (assert (entries decreases to entries[0]);
     entries[0].key <= U64_MAX && Valid(entries[0].value) && ValidEntries(entries[1..]))
  }

  /** Every map lists its keys in ascending order. */
  predicate Ordered(v: Value)
    decreases v, 1
  {
    match v
    case Array(items) => OrderedItems(items)
    case Map(entries) => Ascending(entries) && OrderedEntries(entries)
    case _ => true
  }

  predicate OrderedItems(items: seq<Value>)
    decreases items, 0
  {
    items == [] || (Ordered(items[0]) && OrderedItems(items[1..]))
  }

  predicate OrderedEntries(entries: seq<Entry>)
    decreases entries, 0
  {
    entries == [] ||
    (assert (entries decreases to entries[0]);
     Ordered(entries[0].value) && OrderedEntries(entries[1..]))
  }

  /** Every integer that is not negative is in its unsigned form. */
  predicate UnsignedForm(v: Value)
    decreases v, 1
  {
    match v
    case I64(i) => i < 0
    case Array(items) => UnsignedItems(items)
    case Map(entries) => UnsignedEntries(entries)
    case _ => true
  }

  predicate UnsignedItems(items: seq<Value>)
    decreases items, 0
  {
    items == [] || (UnsignedForm(items[0]) && UnsignedItems(items[1..]))
  }

  predicate UnsignedEntries(entries: seq<Entry>)
    decreases entries, 0
  {
    entries == [] ||
    (assert (entries decreases to entries[0]);
     UnsignedForm(entries[0].value) && UnsignedEntries(entries[1..]))
  }

  /** The value with nonnegative integers in their unsigned form: what its bytes say. */
  function Canonical(v: Value): Value
    decreases v, 1
  {
    match v
    case I64(i) => if i >= 0 then U64(i) else v
    case Array(items) => Array(CanonicalItems(items))
    case Map(entries) => Map(CanonicalEntries(entries))
    case _ => v
  }

  function CanonicalItems(items: seq<Value>): (r: seq<Value>)
    ensures |r| == |items|
    decreases items, 0
  {
    if items == [] then [] else [Canonical(items[0])] + CanonicalItems(items[1..])
  }

  function CanonicalEntries(entries: seq<Entry>): (r: seq<Entry>)
    ensures |r| == |entries|
    ensures forall i :: 0 <= i < |r| ==> r[i].key == entries[i].key
    decreases entries, 0
  {
    if entries == [] then []
    else
      assert (entries decreases to entries[0]);
      [Entry(entries[0].key, Canonical(entries[0].value))] + CanonicalEntries(entries[1..])
  }

  /** How deep values nest below this one. */
  function Depth(v: Value): nat
    decreases v, 1
  {
    match v
    case Array(items) => if items == [] then 0 else 1 + ItemsDepth(items)
    case Map(entries) => if entries == [] then 0 else 1 + EntriesDepth(entries)
    case _ => 0
  }

  function ItemsDepth(items: seq<Value>): nat
    decreases items, 0
  {
    if items == [] then 0 else Max(Depth(items[0]), ItemsDepth(items[1..]))
  }

  function EntriesDepth(entries: seq<Entry>): nat
    decreases entries, 0
  {
    if entries == [] then 0
    else
      assert (entries decreases to entries[0]);
      Max(Depth(entries[0].value), EntriesDepth(entries[1..]))
  }
}
