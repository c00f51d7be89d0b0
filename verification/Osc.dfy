/** The metadata parser: any chunks, and the shell's own announcements come through exactly. */
module Osc {
  import opened Basics
  import opened Utf8
  import opened OscModel

  // ----- chunks -----

  lemma {:induction false} RunConcat(s: State, a: Octets, b: Octets)
    ensures var (middle, first) := Run(s, a);
            var (end, rest) := Run(middle, b);
            Run(s, a + b) == (end, first + rest)
    decreases |a|
  {
    hide Step;
    if a == [] {
      assert a + b == b;
      assert [] + Run(s, b).1 == Run(s, b).1;
    } else {
      var (next, first) := Step(s, a[0]);
      RunConcat(next, a[1..], b);
      assert (a + b)[1..] == a[1..] + b;
      var (middle, more) := Run(next, a[1..]);
      assert first + more + Run(middle, b).1 == first + (more + Run(middle, b).1);
    }
  }

  /** Chunk boundaries do not matter: not to the state and not to the events. */
  lemma {:induction false} ChunksDoNotMatter(s: State, chunks: seq<Octets>)
    ensures RunChunks(s, chunks) == Run(s, Joined(chunks))
    decreases |chunks|
  {
    hide Step, Run;
    if chunks == [] {
      RunNothing(s);
    } else {
      ChunksDoNotMatter(Run(s, chunks[0]).0, chunks[1..]);
      RunConcat(s, chunks[0], Joined(chunks[1..]));
    }
  }

  /** One byte at a time. */
  lemma RunSteps(s: State, bytes: Octets)
    requires bytes != [] && Step(s, bytes[0]).1 == []
    ensures Run(s, bytes) == Run(Step(s, bytes[0]).0, bytes[1..])
  {
    hide Step;
    assert [] + Run(Step(s, bytes[0]).0, bytes[1..]).1 == Run(Step(s, bytes[0]).0, bytes[1..]).1;
  }

  lemma RunNothing(s: State)
    ensures Run(s, []) == (s, [])
  {
  }

  predicate Bounded(s: State) {
    s.Osc? ==> |s.buffer| <= MAX_METADATA
  }

  /** However long a sequence goes on, no more than the limit is buffered. */
  lemma {:induction false} BufferIsBounded(s: State, bytes: Octets)
    requires Bounded(s)
    ensures Bounded(Run(s, bytes).0)
    decreases |bytes|
  {
    hide Announced;
    if bytes != [] {
      BufferIsBounded(Step(s, bytes[0]).0, bytes[1..]);
    }
  }

  // ----- the body of a sequence -----

  predicate Plain(bytes: Octets) {
    forall i :: 0 <= i < |bytes| ==> bytes[i] != ESC && bytes[i] != BEL
  }

  lemma {:induction false} PlainOutsideIsIgnored(bytes: Octets)
    requires forall i :: 0 <= i < |bytes| ==> bytes[i] != ESC
    ensures Run(Normal, bytes) == (Normal, [])
  {
    if bytes != [] {
      RunSteps(Normal, bytes);
      PlainOutsideIsIgnored(bytes[1..]);
    }
  }

  lemma {:induction false} PlainInsideIsStored(buffer: Octets, bytes: Octets)
    requires Plain(bytes) && |buffer| <= MAX_METADATA
    ensures Run(Osc(buffer, false), bytes) ==
            (if |buffer| + |bytes| <= MAX_METADATA then Osc(buffer + bytes, false) else Normal, [])
    decreases |bytes|
  {
    hide Run;
    if bytes == [] {
      RunNothing(Osc(buffer, false));
      assert buffer + bytes == buffer;
    } else if |buffer| < MAX_METADATA {
      RunSteps(Osc(buffer, false), bytes);
      PlainInsideIsStored(buffer + [bytes[0]], bytes[1..]);
      assert buffer + [bytes[0]] + bytes[1..] == buffer + bytes;
    } else {
      RunSteps(Osc(buffer, false), bytes);
      PlainOutsideIsIgnored(bytes[1..]);
    }
  }

  /** A whole sequence ended by BEL: announced if it fits the buffer, dropped if it does not. */
  lemma SequenceIsAnnounced(body: Octets)
    requires Plain(body)
    ensures Run(Normal, [ESC, BRACKET] + body + [BEL]) ==
            (Normal, if |body| <= MAX_METADATA then Announced(body) else [])
  {
    hide Announced, Run;
    var head := [ESC, BRACKET];
    var inside := if |body| <= MAX_METADATA then Osc(body, false) else Normal;
    Opening();
    PlainInsideIsStored([], body);
    assert [] + body == body;
    RunConcat(Normal, head, body);
    assert Run(Normal, head).1 + Run(Osc([], false), body).1 == [];
    assert Run(Normal, head + body) == (inside, []);
    RunConcat(Normal, head + body, [BEL]);
    Closing(inside);
    assert [] + Run(inside, [BEL]).1 == Run(inside, [BEL]).1;
  }

  lemma Opening()
    ensures Run(Normal, [ESC, BRACKET]) == (Osc([], false), [])
  {
    hide Run;
    assert [ESC, BRACKET][1..] == [BRACKET];
    RunSteps(Normal, [ESC, BRACKET]);
    RunOne(Escape, BRACKET);
  }

  lemma Closing(s: State)
    requires s == Normal || (s.Osc? && !s.escape)
    ensures Run(s, [BEL]) == (Normal, if s.Osc? then Announced(s.buffer) else [])
  {
    hide Announced, Run;
    RunOne(s, BEL);
  }

  // ----- escaping -----

  function EscapedByte(c: Byte): (r: Octets)
    ensures r != [] && (c >= 0x80 ==> r == [c]) && (c < 0x80 ==> forall i :: 0 <= i < |r| ==> r[i] < 0x80)
  {
    if c == BACKSLASH then [BACKSLASH, BACKSLASH]
    else if c == SEMICOLON then [BACKSLASH, 0x78, 0x33, 0x62]
    else [c]
  }

  lemma {:induction false} ReplacedConcat(a: Octets, b: Octets, c: Byte, with: Octets)
    ensures Replaced(a + b, c, with) == Replaced(a, c, with) + Replaced(b, c, with)
  {
    if a == [] {
      assert a + b == b;
    } else {
      assert (a + b)[1..] == a[1..] + b;
      ReplacedConcat(a[1..], b, c, with);
    }
  }

  /** The two passes amount to one substitution, byte by byte. */
  lemma EscapesBytewise(c: Byte, rest: Octets)
    ensures Escaped([]) == [] && Escaped([c] + rest) == EscapedByte(c) + Escaped(rest)
  {
    var two, hex := [BACKSLASH, BACKSLASH], [BACKSLASH, 0x78, 0x33, 0x62];
    assert ([c] + rest)[1..] == rest;
    var once := if c == BACKSLASH then two else [c];
    assert Replaced([c] + rest, BACKSLASH, two) == once + Replaced(rest, BACKSLASH, two);
    ReplacedConcat(once, Replaced(rest, BACKSLASH, two), SEMICOLON, hex);
    assert [c][1..] == [] && two[1..] == [BACKSLASH] && [BACKSLASH][1..] == [];
    assert Replaced([BACKSLASH], SEMICOLON, hex) == [BACKSLASH];
    assert Replaced(two, SEMICOLON, hex) == two;
    assert Replaced([c], SEMICOLON, hex) == if c == SEMICOLON then hex else [c];
  }

  lemma UnescapesByte(c: Byte, rest: Octets)
    ensures Unescape(EscapedByte(c) + rest) == [c] + Unescape(rest)
  {
    var e := EscapedByte(c) + rest;
    assert e[|EscapedByte(c)|..] == rest;
    assert Hex(0x33) == Some(3) && Hex(0x62) == Some(11);
  }

  /** Unescaping undoes escaping, for every byte string. */
  lemma {:induction false} UnescapeEscaped(value: Octets)
    ensures Unescape(Escaped(value)) == value
  {
    hide Escaped, Unescape, EscapedByte;
    if value == [] {
      EscapesBytewise(0, []);
      UnescapeNothing();
    } else {
      assert value == [value[0]] + value[1..];
      EscapesBytewise(value[0], value[1..]);
      UnescapesByte(value[0], Escaped(value[1..]));
      UnescapeEscaped(value[1..]);
    }
  }

  lemma UnescapeNothing()
    ensures Unescape([]) == []
  {
  }

  lemma {:induction false} EscapedIsPlain(value: Octets)
    requires Plain(value)
    ensures Plain(Escaped(value))
  {
    hide Escaped;
    if value == [] {
      EscapesBytewise(0, []);
    } else {
      assert value == [value[0]] + value[1..];
      EscapesBytewise(value[0], value[1..]);
      EscapedIsPlain(value[1..]);
    }
  }

  // ----- escaping and ill-formed text -----

  lemma {:induction false} LossyAsciiPrefix(a: Octets, rest: Octets)
    requires forall i :: 0 <= i < |a| ==> a[i] < 0x80
    ensures Lossy(a + rest) == a + Lossy(rest)
  {
    hide Lossy;
    if a == [] {
      assert a + rest == rest;
    } else {
      assert a + rest == [a[0]] + (a[1..] + rest);
      LossyAscii(a[0], a[1..] + rest);
      LossyAsciiPrefix(a[1..], rest);
    }
  }

  /** Two strings that agree until one byte in each is ASCII. */
  predicate Alike(s: Octets, t: Octets, i: nat) {
    (i >= |s| && i >= |t|) || (i < |s| && i < |t| && (s[i] == t[i] || (s[i] < 0x80 && t[i] < 0x80)))
  }

  lemma AlikeLengths(s: Octets, t: Octets)
    requires s != [] && t != [] && s[0] >= 0x80 && s[0] == t[0]
    requires Alike(s, t, 1)
    requires |s| >= 2 && s[1] >= 0x80 ==> Alike(s, t, 2)
    requires |s| >= 3 && s[1] >= 0x80 && s[2] >= 0x80 ==> Alike(s, t, 3)
    ensures CharLength(s) == CharLength(t) && (CharLength(s) == 0 ==> BadLength(s) == BadLength(t))
  {
  }

  /** How many leading bytes one step of `Lossy` consumes. */
  function Unit(s: Octets): (n: nat)
    requires s != []
    ensures 1 <= n <= |s|
  {
    if CharLength(s) > 0 then CharLength(s) else BadLength(s)
  }

  lemma UnitIsHigh(s: Octets, i: nat)
    requires s != [] && s[0] >= 0x80 && i < Unit(s)
    ensures s[i] >= 0x80
  {
  }

  /** Bytes of ill-formed or longer characters are escaped as themselves. */
  lemma {:induction false} EscapedHigh(value: Octets, n: nat)
    requires n <= |value| && forall i :: 0 <= i < n ==> value[i] >= 0x80
    ensures |Escaped(value)| >= n && Escaped(value)[..n] == value[..n] && Escaped(value)[n..] == Escaped(value[n..])
  {
    hide Escaped;
    if n == 0 {
      assert value[0..] == value;
    } else {
      assert value == [value[0]] + value[1..];
      EscapesBytewise(value[0], value[1..]);
      EscapedHigh(value[1..], n - 1);
      assert value[1..][n - 1..] == value[n..];
      assert Escaped(value) == [value[0]] + Escaped(value[1..]);
      assert Escaped(value)[n..] == Escaped(value[1..])[n - 1..];
    }
  }

  lemma EscapedAlike(value: Octets, i: nat)
    requires i <= |value| && forall j :: 0 <= j < i ==> value[j] >= 0x80
    ensures Alike(value, Escaped(value), i)
  {
    hide Escaped;
    EscapedHigh(value, i);
    if i < |value| {
      assert value[i..] == [value[i]] + value[i + 1..];
      EscapesBytewise(value[i], value[i + 1..]);
      assert Escaped(value)[i] == Escaped(value[i..])[0];
    } else {
      EscapesBytewise(0, []);
      assert value[i..] == [];
    }
  }

  lemma EscapedUnit(value: Octets)
    requires value != [] && value[0] >= 0x80
    ensures Escaped(value) != [] && CharLength(Escaped(value)) == CharLength(value)
    ensures CharLength(value) == 0 ==> BadLength(Escaped(value)) == BadLength(value)
  {
    hide Escaped, CharLength, BadLength;
    EscapedHigh(value, 1);
    EscapedAlike(value, 1);
    if |value| >= 2 && value[1] >= 0x80 {
      EscapedAlike(value, 2);
      if |value| >= 3 && value[2] >= 0x80 {
        EscapedAlike(value, 3);
      }
    }
    AlikeLengths(value, Escaped(value));
  }

  /** Reading as text and escaping can be done in either order. */
  lemma {:induction false} LossyEscaped(value: Octets)
    ensures Lossy(Escaped(value)) == Escaped(Lossy(value))
    decreases |value|
  {
    hide Escaped, CharLength, BadLength, EscapedByte;
    if value == [] {
      EscapesBytewise(0, []);
    } else if value[0] < 0x80 {
      hide Lossy;
      var c, rest := value[0], value[1..];
      assert value == [c] + rest;
      EscapesBytewise(c, rest);
      LossyAsciiPrefix(EscapedByte(c), Escaped(rest));
      LossyAscii(c, rest);
      EscapesBytewise(c, Lossy(rest));
      LossyEscaped(rest);
    } else {
      var n := Unit(value);
      forall i | 0 <= i < n ensures value[i] >= 0x80 {
        UnitIsHigh(value, i);
      }
      EscapedUnit(value);
      EscapedHigh(value, n);
      LossyEscaped(value[n..]);
      var front := if CharLength(value) > 0 then value[..n] else REPLACEMENT;
      assert Lossy(value) == front + Lossy(value[n..]);
      HighPrefix(front, Lossy(value[n..]));
    }
  }

  lemma HighPrefix(front: Octets, rest: Octets)
    requires forall i :: 0 <= i < |front| ==> front[i] >= 0x80
    ensures Escaped(front + rest) == front + Escaped(rest)
  {
    hide Escaped;
    var all := front + rest;
    EscapedHigh(all, |front|);
    assert all[..|front|] == front && all[|front|..] == rest;
    assert Escaped(all) == Escaped(all)[..|front|] + Escaped(all)[|front|..];
  }

  // ----- the shell's announcement -----

  lemma {:induction false} SplitsAt(front: Octets, c: Byte, rest: Octets)
    requires c !in front
    ensures SplitOnce(front + [c] + rest, c) == Some((front, rest))
  {
    var text := front + [c] + rest;
    if front == [] {
      assert text[1..] == rest;
    } else {
      assert text[1..] == front[1..] + [c] + rest;
      SplitsAt(front[1..], c, rest);
      assert [front[0]] + front[1..] == front;
    }
  }

  lemma PrefixIsRead(value: Octets)
    ensures Metadatum(CWD_PREFIX + value) == AsCwd(NonEmpty(Lossy(Unescape(value))))
  {
    hide NonEmpty, Unescape, Lossy, SplitOnce;
    var pair := CWD + [EQUALS] + value;
    var payload := PROPERTY + [SEMICOLON] + pair;
    assert CWD_PREFIX + value == INTEGRATION + [SEMICOLON] + payload;
    SplitsAt(INTEGRATION, SEMICOLON, payload);
    SplitsAt(PROPERTY, SEMICOLON, pair);
    SplitsAt(CWD, EQUALS, value);
  }

  /** What arrives for any directory name free of ESC and BEL, well-formed or not. */
  lemma AnnouncedDirectory(path: Octets)
    requires Plain(path)
    ensures Run(Normal, Announcement(path)) ==
            (Normal, if |CWD_PREFIX| + |Escaped(path)| <= MAX_METADATA && Trim(Lossy(path)) != []
                     then [Cwd(Trim(Lossy(path)))] else [])
  {
    hide Escaped, Trim, Lossy, Metadatum, Run, Unescape;
    var body := CWD_PREFIX + Escaped(path);
    EscapedIsPlain(path);
    SequenceIsAnnounced(body);
    LossyAsciiPrefix(CWD_PREFIX, Escaped(path));
    LossyEscaped(path);
    PrefixIsRead(Escaped(Lossy(path)));
    UnescapeEscaped(Lossy(path));
    LossyIsValid(path);
    LossyKeepsText(Lossy(path));
  }

  /** A directory with a proper name is reported once, as it is, however the output is cut up. */
  lemma DirectoryComesThrough(path: Octets, chunks: seq<Octets>)
    requires path != [] && Plain(path) && Valid(path) && Trim(path) == path
    requires Joined(chunks) == Announcement(path)
    ensures RunChunks(Normal, chunks) ==
            (Normal, if |CWD_PREFIX| + |Escaped(path)| <= MAX_METADATA then [Cwd(path)] else [])
  {
    hide Escaped, Trim, Lossy, Run;
    ChunksDoNotMatter(Normal, chunks);
    AnnouncedDirectory(path);
    LossyKeepsText(path);
  }

  // ----- the loops -----

  class MetadataParser {
    var state: State

    constructor ()
      ensures state == Normal
    {
      state := Normal;
    }

    method Push(bytes: Octets) returns (events: seq<Metadata>)
      modifies this
      ensures (state, events) == Run(old(state), bytes)
    {
      hide Announced;
      events := [];
      RunNothing(old(state));
      for i := 0 to |bytes|
        invariant (state, events) == Run(old(state), bytes[..i])
      {
        var b := bytes[i];
        RunConcat(old(state), bytes[..i], [b]);
        RunOne(state, b);
        assert events + [] == events;
        assert bytes[..i] + [b] == bytes[..i + 1];
        match state
        case Normal =>
          if b == ESC {
            state := Escape;
          }
        case Escape =>
          if b == BRACKET {
            state := Osc([], false);
          } else if b != ESC {
            state := Normal;
          }
        case Osc(buffer, escape) =>
          if escape {
            if b == BACKSLASH {
              events := events + Announced(buffer);
              state := Normal;
            } else {
              state := Osc(Stored(Stored(buffer, ESC), b), false);
            }
          } else if b == BEL {
            events := events + Announced(buffer);
            state := Normal;
          } else if b == ESC {
            state := Osc(buffer, true);
          } else if |buffer| < MAX_METADATA {
            state := Osc(buffer + [b], false);
          } else {
            state := Normal;
          }
      }
      assert bytes[..|bytes|] == bytes;
    }
  }

  lemma RunOne(s: State, b: Byte)
    ensures Run(s, [b]) == Step(s, b)
  {
    hide Step;
    assert [b][1..] == [];
    assert Run(Step(s, b).0, []) == (Step(s, b).0, []);
    assert Step(s, b).1 + [] == Step(s, b).1;
  }

  method UnescapeValue(bytes: Octets) returns (output: Octets)
    ensures output == Unescape(bytes)
  {
    hide Unescape;
    output := [];
    var index := 0;
    UnescapeNothing();
    assert bytes[0..] == bytes && [] + Unescape(bytes) == Unescape(bytes);
    while index < |bytes|
      invariant index <= |bytes|
      invariant Unescape(bytes) == output + Unescape(bytes[index..])
      decreases |bytes| - index
    {
      UnescapeOn(bytes, index);
      ghost var (b, n) := FirstEscaped(bytes[index..]);
      assert output + ([b] + Unescape(bytes[index + n..])) == output + [b] + Unescape(bytes[index + n..]);
      if bytes[index] == BACKSLASH {
        if index + 1 < |bytes| && bytes[index + 1] == BACKSLASH {
          output := output + [BACKSLASH];
          index := index + 2;
          continue;
        }
        if index + 3 < |bytes| && bytes[index + 1] == 0x78 {
          var high, low := Hex(bytes[index + 2]), Hex(bytes[index + 3]);
          if high.Some? && low.Some? {
            output := output + [16 * high.value + low.value];
            index := index + 4;
            continue;
          }
        }
      }
      output := output + [bytes[index]];
      index := index + 1;
    }
    assert bytes[index..] == [] && output + [] == output;
  }

  lemma UnescapeOn(bytes: Octets, index: nat)
    requires index < |bytes|
    ensures var (b, n) := FirstEscaped(bytes[index..]);
            Unescape(bytes[index..]) == [b] + Unescape(bytes[index + n..])
  {
    hide FirstEscaped;
    var n := FirstEscaped(bytes[index..]).1;
    assert bytes[index..][n..] == bytes[index + n..];
  }
}
