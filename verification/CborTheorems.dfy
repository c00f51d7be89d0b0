/** The decoder against the encoder: round trips, re-encoding, prefixes and the order of keys. */
module CborTheorems {
  import opened Basics
  import opened BigEndian
  import opened CborModel
  import opened CborProofs

  // ----- sorting a map -----

  function EncodeEntry(e: Entry): Octets {
    Head(0, e.key) + Encode(e.value)
  }

  lemma {:induction false} InsertSize(sorted: seq<Entry>, e: Entry)
    ensures |Insert(sorted, e)| == |sorted| + 1
    ensures |EncodeEntries(Insert(sorted, e))| == |EncodeEntries(sorted)| + |EncodeEntry(e)|
  {
    hide Encode, Head;
    if sorted == [] {
      assert EncodeEntries([e]) == EncodeEntry(e) + EncodeEntries([e][1..]);
    } else if e.key < sorted[0].key {
      assert ([e] + sorted)[1..] == sorted;
    } else {
      InsertSize(sorted[1..], e);
      assert Insert(sorted, e)[1..] == Insert(sorted[1..], e);
    }
  }

  lemma {:induction false} EncodeEntriesLast(entries: seq<Entry>)
    requires entries != []
    ensures EncodeEntries(entries) ==
            EncodeEntries(entries[..|entries| - 1]) + EncodeEntry(entries[|entries| - 1])
  {
    hide Encode, Head;
    if |entries| == 1 {
      assert entries[1..] == [];
    } else {
      EncodeEntriesLast(entries[1..]);
      assert entries[1..][..|entries| - 2] == entries[..|entries| - 1][1..];
    }
  }

  lemma {:induction false} SortSize(entries: seq<Entry>)
    ensures |Sort(entries)| == |entries| && |EncodeEntries(Sort(entries))| == |EncodeEntries(entries)|
  {
    if entries != [] {
      SortSize(entries[..|entries| - 1]);
      InsertSize(Sort(entries[..|entries| - 1]), entries[|entries| - 1]);
      EncodeEntriesLast(entries);
    }
  }

  lemma {:induction false} InsertKeepsAll(sorted: seq<Entry>, e: Entry)
    ensures multiset(Insert(sorted, e)) == multiset(sorted) + multiset{e}
  {
    if sorted != [] && !(e.key < sorted[0].key) {
      InsertKeepsAll(sorted[1..], e);
      assert sorted == [sorted[0]] + sorted[1..];
    }
  }

  /** A bound below the list and the new entry is a bound below both together. */
  lemma {:induction false} InsertAbove(sorted: seq<Entry>, e: Entry, low: nat)
    requires low < e.key && forall i :: 0 <= i < |sorted| ==> low < sorted[i].key
    ensures forall i :: 0 <= i < |Insert(sorted, e)| ==> low < Insert(sorted, e)[i].key
  {
    if sorted != [] && !(e.key < sorted[0].key) {
      InsertAbove(sorted[1..], e, low);
    }
  }

  lemma ConsAscends(first: Entry, rest: seq<Entry>)
    requires Ascending(rest) && forall i :: 0 <= i < |rest| ==> first.key < rest[i].key
    ensures Ascending([first] + rest)
  {
  }

  lemma {:induction false} InsertOrders(sorted: seq<Entry>, e: Entry)
    requires Ascending(sorted) && forall i :: 0 <= i < |sorted| ==> sorted[i].key != e.key
    ensures Ascending(Insert(sorted, e))
  {
    hide Ascending;
    if sorted == [] {
      OneAscends(e);
    } else {
      AscendingTail(sorted);
      if e.key < sorted[0].key {
        ConsAscends(e, sorted);
      } else {
        InsertOrders(sorted[1..], e);
        InsertAbove(sorted[1..], e, sorted[0].key);
        ConsAscends(sorted[0], Insert(sorted[1..], e));
      }
    }
  }

  lemma OneAscends(e: Entry)
    ensures Ascending([e])
  {
  }

  lemma AscendingTail(sorted: seq<Entry>)
    requires Ascending(sorted) && sorted != []
    ensures Ascending(sorted[1..]) && forall i :: 0 < i < |sorted| ==> sorted[0].key < sorted[i].key
  {
  }

  /** An ascending list stays ascending, gains the entry, and loses nothing. */
  lemma InsertAscends(sorted: seq<Entry>, e: Entry)
    requires Ascending(sorted) && forall i :: 0 <= i < |sorted| ==> sorted[i].key != e.key
    ensures Ascending(Insert(sorted, e)) && multiset(Insert(sorted, e)) == multiset(sorted) + multiset{e}
  {
    hide Ascending, Insert;
    InsertOrders(sorted, e);
    InsertKeepsAll(sorted, e);
  }

  /** Sorting puts the entries of a map without repeated keys into ascending order and keeps them all. */
  lemma {:induction false} SortAscends(entries: seq<Entry>)
    requires DistinctKeys(entries)
    ensures Ascending(Sort(entries)) && multiset(Sort(entries)) == multiset(entries)
  {
    if entries != [] {
      var front, last := entries[..|entries| - 1], entries[|entries| - 1];
      assert entries == front + [last];
      SortAscends(front);
      forall i | 0 <= i < |Sort(front)|
        ensures Sort(front)[i].key != last.key
      {
        assert Sort(front)[i] in multiset(Sort(front));
        assert Sort(front)[i] in front;
      }
      InsertAscends(Sort(front), last);
    }
  }

  lemma {:induction false} InsertLast(sorted: seq<Entry>, e: Entry)
    requires forall i :: 0 <= i < |sorted| ==> sorted[i].key < e.key
    ensures Insert(sorted, e) == sorted + [e]
  {
    if sorted != [] {
      InsertLast(sorted[1..], e);
    }
  }

  lemma {:induction false} SortKeepsAscending(entries: seq<Entry>)
    requires Ascending(entries)
    ensures Sort(entries) == entries
  {
    if entries != [] {
      SortKeepsAscending(entries[..|entries| - 1]);
      InsertLast(entries[..|entries| - 1], entries[|entries| - 1]);
    }
  }

  // ----- a decoded value -----

  lemma {:induction false} NormalSize(v: Value)
    ensures |Encode(Normal(v))| == |Encode(v)|
    decreases v, 1
  {
    hide Head;
    match v
    case Array(items) => NormalItemsSize(items);
    case Map(entries) =>
      NormalEntriesSize(entries);
      SortSize(NormalEntries(entries));
    case _ =>
  }

  lemma {:induction false} NormalItemsSize(items: seq<Value>)
    ensures |EncodeItems(NormalItems(items))| == |EncodeItems(items)|
    decreases items, 0
  {
    hide Encode, Normal;
    if items != [] {
      NormalSize(items[0]);
      NormalItemsSize(items[1..]);
      assert NormalItems(items)[1..] == NormalItems(items[1..]);
    }
  }

  lemma {:induction false} NormalEntriesSize(entries: seq<Entry>)
    ensures |EncodeEntries(NormalEntries(entries))| == |EncodeEntries(entries)|
    decreases entries, 0
  {
    hide Encode, Normal, Head;
    if entries != [] {
      assert (entries decreases to entries[0]);
      NormalSize(entries[0].value);
      NormalEntriesSize(entries[1..]);
      assert NormalEntries(entries)[1..] == NormalEntries(entries[1..]);
    }
  }

  /** A property of all entries does not depend on their order. */
  lemma {:induction false} EntriesEach(entries: seq<Entry>)
    ensures ValidEntries(entries) <==>
            forall i :: 0 <= i < |entries| ==> entries[i].key <= U64_MAX && Valid(entries[i].value)
    ensures UnsignedEntries(entries) <==> forall i :: 0 <= i < |entries| ==> UnsignedForm(entries[i].value)
    ensures OrderedEntries(entries) <==> forall i :: 0 <= i < |entries| ==> Ordered(entries[i].value)
  {
    hide Valid, UnsignedForm, Ordered;
    if entries != [] {
      EntriesEach(entries[1..]);
      assert forall i :: 0 < i < |entries| ==> entries[i] == entries[1..][i - 1];
    }
  }

  lemma SortKeepsProperties(entries: seq<Entry>)
    requires DistinctKeys(entries)
    ensures Ascending(Sort(entries)) && |Sort(entries)| == |entries|
    ensures ValidEntries(entries) ==> ValidEntries(Sort(entries))
    ensures UnsignedEntries(entries) ==> UnsignedEntries(Sort(entries))
    ensures OrderedEntries(entries) ==> OrderedEntries(Sort(entries))
  {
    hide Sort, Valid, UnsignedForm, Ordered, ValidEntries, UnsignedEntries, OrderedEntries;
    SortSize(entries);
    SortAscends(entries);
    EntriesEach(entries);
    EntriesEach(Sort(entries));
    forall i | 0 <= i < |Sort(entries)|
      ensures Sort(entries)[i] in entries
    {
      assert Sort(entries)[i] in multiset(Sort(entries));
    }
  }

  lemma {:induction false} NormalIsOrdered(v: Value)
    requires Valid(v) && UnsignedForm(v)
    ensures Valid(Normal(v)) && UnsignedForm(Normal(v)) && Ordered(Normal(v))
    decreases v, 1
  {
    match v
    case Array(items) => NormalItemsAreOrdered(items);
    case Map(entries) =>
      NormalEntriesAreOrdered(entries);
      SortKeepsProperties(NormalEntries(entries));
    case _ =>
  }

  lemma {:induction false} NormalItemsAreOrdered(items: seq<Value>)
    requires ValidItems(items) && UnsignedItems(items)
    ensures ValidItems(NormalItems(items)) && UnsignedItems(NormalItems(items)) && OrderedItems(NormalItems(items))
    decreases items, 0
  {
    hide Normal, Valid, UnsignedForm, Ordered;
    if items != [] {
      NormalIsOrdered(items[0]);
      NormalItemsAreOrdered(items[1..]);
      assert NormalItems(items)[1..] == NormalItems(items[1..]);
    }
  }

  lemma {:induction false} NormalEntriesAreOrdered(entries: seq<Entry>)
    requires ValidEntries(entries) && UnsignedEntries(entries)
    ensures var n := NormalEntries(entries); ValidEntries(n) && UnsignedEntries(n) && OrderedEntries(n)
    decreases entries, 0
  {
    hide Normal, Valid, UnsignedForm, Ordered;
    if entries != [] {
      assert (entries decreases to entries[0]);
      NormalIsOrdered(entries[0].value);
      NormalEntriesAreOrdered(entries[1..]);
      assert NormalEntries(entries)[1..] == NormalEntries(entries[1..]);
    }
  }

  lemma {:induction false} OrderedIsNormal(v: Value)
    requires Ordered(v)
    ensures Normal(v) == v
    decreases v, 1
  {
    match v
    case Array(items) => OrderedItemsAreNormal(items);
    case Map(entries) =>
      OrderedEntriesAreNormal(entries);
      SortKeepsAscending(entries);
    case _ =>
  }

  lemma {:induction false} OrderedItemsAreNormal(items: seq<Value>)
    requires OrderedItems(items)
    ensures NormalItems(items) == items
    decreases items, 0
  {
    if items != [] {
      OrderedIsNormal(items[0]);
      OrderedItemsAreNormal(items[1..]);
    }
  }

  lemma {:induction false} OrderedEntriesAreNormal(entries: seq<Entry>)
    requires OrderedEntries(entries)
    ensures NormalEntries(entries) == entries
    decreases entries, 0
  {
    if entries != [] {
      assert (entries decreases to entries[0]);
      OrderedIsNormal(entries[0].value);
      OrderedEntriesAreNormal(entries[1..]);
    }
  }

  // ----- re-encoding what was accepted -----

  /** The bytes accepted at the front of `b`, with maps in the order the bytes list them. */
  ghost function Listed(b: Octets, depth: nat): Value
    requires Decode(b, depth).Ok?
  {
    Parse(b, depth).value
  }

  /**
   Re-encoding a decoded value gives as many bytes as were accepted, and the same
   bytes exactly when every map listed its keys in ascending order.
   */
  lemma ReencodingDecoded(b: Octets, depth: nat)
    requires Decode(b, depth).Ok?
    ensures var d := Decode(b, depth);
            && |Encode(d.value)| == d.used
            && (Encode(d.value) == b[..d.used] <==> Ordered(Listed(b, depth)))
            && Valid(d.value) && Ordered(d.value) && UnsignedForm(d.value)
  {
    hide Parse, Encode, Normal, Valid, UnsignedForm, Ordered, Depth;
    var raw := Listed(b, depth);
    ParseRebuilds(b, depth);
    NormalSize(raw);
    NormalIsOrdered(raw);
    if Ordered(raw) {
      OrderedIsNormal(raw);
    } else if Encode(Normal(raw)) == Encode(raw) {
      ParseEncoded(raw, [], depth);
      ParseEncoded(Normal(raw), [], depth);
    }
  }

  // ----- decoding what was encoded -----

  lemma {:induction false} CanonicalFacts(v: Value)
    requires Valid(v) && Ordered(v)
    ensures var c := Canonical(v);
            && Encode(c) == Encode(v) && Depth(c) == Depth(v)
            && Valid(c) && UnsignedForm(c) && Ordered(c) && (c == v <==> UnsignedForm(v))
    decreases v, 1
  {
    hide Head;
    match v
    case Array(items) => CanonicalItemsFacts(items);
    case Map(entries) => CanonicalEntriesFacts(entries);
    case _ =>
  }

  lemma {:induction false} CanonicalItemsFacts(items: seq<Value>)
    requires ValidItems(items) && OrderedItems(items)
    ensures var c := CanonicalItems(items);
            && EncodeItems(c) == EncodeItems(items) && ItemsDepth(c) == ItemsDepth(items)
            && ValidItems(c) && UnsignedItems(c) && OrderedItems(c) && (c == items <==> UnsignedItems(items))
    decreases items, 0
  {
    hide Encode, Depth, Valid, UnsignedForm, Ordered, Canonical;
    if items != [] {
      CanonicalFacts(items[0]);
      CanonicalItemsFacts(items[1..]);
      var c := CanonicalItems(items);
      assert c[1..] == CanonicalItems(items[1..]);
      assert c == items <==> c[0] == items[0] && c[1..] == items[1..];
    }
  }

  lemma {:induction false} CanonicalEntriesFacts(entries: seq<Entry>)
    requires ValidEntries(entries) && OrderedEntries(entries)
    ensures var c := CanonicalEntries(entries);
            && EncodeEntries(c) == EncodeEntries(entries) && EntriesDepth(c) == EntriesDepth(entries)
            && ValidEntries(c) && UnsignedEntries(c) && OrderedEntries(c) && (c == entries <==> UnsignedEntries(entries))
    decreases entries, 0
  {
    hide Encode, Depth, Valid, UnsignedForm, Ordered, Canonical, Head;
    if entries != [] {
      assert (entries decreases to entries[0]);
      CanonicalFacts(entries[0].value);
      CanonicalEntriesFacts(entries[1..]);
      var c := CanonicalEntries(entries);
      assert c[1..] == CanonicalEntries(entries[1..]);
      assert c == entries <==> c[0] == entries[0] && c[1..] == entries[1..];
    }
  }

  /**
   For every value a program can hold: decoding its encoding, whatever follows,
   returns the value in canonical form and consumes exactly the encoding, or
   reports that it nests too deep.
   */
  lemma DecodeEncoded(v: Value, rest: Octets, depth: nat)
    requires Valid(v) && Ordered(v)
    ensures Decode(Encode(v) + rest, depth) ==
            if depth + Depth(v) <= 64 then Ok(Canonical(v), |Encode(v)|) else Err(LengthTooLarge)
  {
    hide Parse, Encode, Normal, Valid, UnsignedForm, Ordered, Depth, Canonical;
    CanonicalFacts(v);
    ParseEncoded(Canonical(v), rest, depth);
    OrderedIsNormal(Canonical(v));
  }

  /** A value comes back unchanged exactly when it fits the nesting limit and its nonnegative integers are unsigned. */
  lemma RoundTripIff(v: Value, rest: Octets)
    requires Valid(v) && Ordered(v)
    ensures Decode(Encode(v) + rest, 0) == Ok(v, |Encode(v)|) <==> Depth(v) <= 64 && UnsignedForm(v)
  {
    hide Decode, Encode, Valid, UnsignedForm, Ordered, Depth, Canonical;
    DecodeEncoded(v, rest, 0);
    CanonicalFacts(v);
  }

  // ----- prefixes -----

  /** Once the decoder has answered, more input does not change its answer. */
  lemma DecodeStable(b: Octets, more: Octets, depth: nat)
    requires Decode(b, depth) != Err(UnexpectedEnd)
    ensures Decode(b + more, depth) == Decode(b, depth)
  {
    hide Parse, Normal;
    ParseStable(b, more, depth);
  }

  /** A strict prefix of an encoding is never an error and never a shorter value: it needs more input. */
  lemma StrictPrefixNeedsMore(v: Value, cut: nat, depth: nat)
    requires Valid(v) && Ordered(v) && depth + Depth(v) <= MAX_DEPTH && cut < |Encode(v)|
    ensures Decode(Encode(v)[..cut], depth) == Err(UnexpectedEnd)
  {
    hide Encode, Normal, Valid, UnsignedForm, Ordered, Depth, Canonical;
    var p, q := Encode(v)[..cut], Encode(v)[cut..];
    assert Encode(v) == p + q == Encode(v) + [];
    DecodeEncoded(v, [], depth);
    if Decode(p, depth) != Err(UnexpectedEnd) {
      DecodeStable(p, q, depth);
    }
  }

  // ----- the order of keys -----

  /** Bytewise lexicographic order, a prefix before its extensions. */
  predicate LexLess(a: Octets, b: Octets) {
    b != [] && (a == [] || a[0] < b[0] || (a[0] == b[0] && LexLess(a[1..], b[1..])))
  }

  lemma {:induction false} LexLessSameLength(a: Octets, b: Octets)
    requires |a| == |b|
    ensures LexLess(a, b) <==> Precedes(a, b)
  {
    if a != [] {
      LexLessSameLength(a[1..], b[1..]);
    }
  }

  /** Ascending numeric keys are in the bytewise order of their encodings (section 4.2.1 of RFC 8949). */
  lemma KeyOrderIsBytewise(k: nat, l: nat)
    requires k <= U64_MAX && l <= U64_MAX
    ensures k < l <==> LexLess(Head(0, k), Head(0, l))
  {
    Widths();
    var a, b := Head(0, k), Head(0, l);
    if a[0] == b[0] && |a| > 1 {
      BytesOrderLikeNumbers(k, l, |a| - 1);
      LexLessSameLength(a[1..], b[1..]);
    }
  }
}
