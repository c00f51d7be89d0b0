/** The other sequences terminals know: titles, directories as file URLs, and quoted directories. */
module OscKinds {
  import opened Basics
  import opened Utf8
  import opened OscModel
  import opened Osc

  /** What arrives for a whole sequence, in terms of the text it carries. */
  lemma Arrives(prefix: Octets, text: Octets)
    requires Plain(prefix + text) && forall i :: 0 <= i < |prefix| ==> prefix[i] < 0x80
    ensures var m := Metadatum(prefix + Lossy(text));
            Run(Normal, [ESC, BRACKET] + (prefix + text) + [BEL]) ==
              (Normal, if |prefix| + |text| <= 4096 && m.Some? then [m.value] else [])
  {
    hide Run, Metadatum, Lossy;
    SequenceIsAnnounced(prefix + text);
    LossyAsciiPrefix(prefix, text);
  }

  /** A title is announced, trimmed, by sequences 0 and 2 alike. */
  lemma TitleArrives(kind: Byte, text: Octets)
    requires (kind == 0x30 || kind == 0x32) && Plain(text)
    ensures Run(Normal, [ESC, BRACKET] + ([kind, SEMICOLON] + text) + [BEL]) ==
            (Normal, if 2 + |text| <= 4096 && Trim(Lossy(text)) != [] then [Title(Trim(Lossy(text)))] else [])
  {
    hide Run, Trim, Lossy, Metadatum;
    TitleIsRead(kind, Lossy(text));
    Arrives([kind, SEMICOLON], text);
  }

  lemma TitleIsRead(kind: Byte, text: Octets)
    requires kind == 0x30 || kind == 0x32
    ensures Metadatum([kind, SEMICOLON] + text) == if Trim(text) != [] then Some(Title(Trim(text))) else None
  {
    hide Trim, SplitOnce, Osc7, Osc633, TrimQuotes;
    assert [kind, SEMICOLON] + text == [kind] + [SEMICOLON] + text;
    SplitsAt([kind], SEMICOLON, text);
  }

  /** `9;9;` announces a directory, which may be quoted. */
  lemma QuotedDirectoryArrives(path: Octets)
    requires Plain(path)
    ensures var told := Trim(TrimQuotes(Trim(Lossy(path))));
            Run(Normal, [ESC, BRACKET] + ([0x39, SEMICOLON, 0x39, SEMICOLON] + path) + [BEL]) ==
              (Normal, if 4 + |path| <= 4096 && told != [] then [Cwd(told)] else [])
  {
    hide Run, Trim, Lossy, Metadatum, TrimQuotes, Plain;
    var prefix := [0x39, SEMICOLON, 0x39, SEMICOLON];
    QuotedIsRead(Lossy(path));
    PlainOn(prefix, path);
    Arrives(prefix, path);
  }

  lemma PlainOn(prefix: Octets, text: Octets)
    requires Plain(text) && forall i :: 0 <= i < |prefix| ==> prefix[i] != ESC && prefix[i] != BEL
    ensures Plain(prefix + text)
  {
  }

  lemma QuotedIsRead(text: Octets)
    ensures var told := Trim(TrimQuotes(Trim(text)));
            Metadatum([0x39, SEMICOLON, 0x39, SEMICOLON] + text) == if told != [] then Some(Cwd(told)) else None
  {
    hide Trim, SplitOnce, TrimQuotes, Osc7, Osc633;
    var inner := [0x39] + [SEMICOLON] + text;
    assert [0x39, SEMICOLON, 0x39, SEMICOLON] + text == [0x39] + [SEMICOLON] + inner;
    SplitsAt([0x39], SEMICOLON, inner);
    SplitsAt([0x39], SEMICOLON, text);
  }

  // ----- quotes -----

  /** Quotes around a name that has none at its ends are taken off, all of them. */
  lemma {:induction false} QuotesComeOff(name: Octets, left: nat, right: nat)
    requires name != [] && name[0] != 0x22 && name[|name| - 1] != 0x22
    ensures TrimQuotes(seq(left, _ => 0x22) + name + seq(right, _ => 0x22)) == name
    decreases left + right
  {
    var text := seq(left, _ => 0x22) + name + seq(right, _ => 0x22);
    if left > 0 {
      assert text[0] == 0x22 && text[1..] == seq(left - 1, _ => 0x22) + name + seq(right, _ => 0x22);
      QuotesComeOff(name, left - 1, right);
    } else if right > 0 {
      assert text[0] == name[0] && text[..|text| - 1] == seq(left, _ => 0x22) + name + seq(right - 1, _ => 0x22);
      QuotesComeOff(name, left, right - 1);
    } else {
      assert text == name;
    }
  }

  // ----- file URLs -----

  /** Bytes that need no percent sign. */
  predicate Unreserved(b: Byte) {
    || 0x30 <= b <= 0x39 || 0x41 <= b <= 0x5a || 0x61 <= b <= 0x7a
    || b == 0x2d || b == 0x2e || b == 0x2f || b == 0x5f || b == 0x7e
  }

  function HexDigit(n: nat): Byte
    requires n < 16
  {
    if n < 10 then 0x30 + n else 0x41 + n - 10
  }

  function PercentByte(b: Byte): (r: Octets)
    ensures r != [] && forall i :: 0 <= i < |r| ==> 0x21 <= r[i] <= 0x7e
  {
    if Unreserved(b) then [b] else [0x25, HexDigit(b / 16), HexDigit(b % 16)]
  }

  /** A path as a URL carries it (section 2.1 of RFC 3986). */
  function Percent(path: Octets): (r: Octets)
    ensures forall i :: 0 <= i < |r| ==> 0x21 <= r[i] <= 0x7e
    ensures path != [] ==> r != []
  {
    if path == [] then [] else PercentByte(path[0]) + Percent(path[1..])
  }

  lemma HexReads(n: nat)
    requires n < 16
    ensures Hex(HexDigit(n)) == Some(n)
  {
  }

  lemma DecodesByte(b: Byte, rest: Octets)
    ensures PercentDecode(PercentByte(b) + rest) == [b] + PercentDecode(rest)
  {
    HexReads(b / 16);
    HexReads(b % 16);
    var e := PercentByte(b) + rest;
    assert e[|PercentByte(b)|..] == rest;
  }

  /** Decoding undoes percent-encoding, for every byte string. */
  lemma {:induction false} PercentRoundTrips(path: Octets)
    ensures PercentDecode(Percent(path)) == path
  {
    hide PercentDecode;
    if path == [] {
      NothingDecoded();
    } else {
      DecodesByte(path[0], Percent(path[1..]));
      PercentRoundTrips(path[1..]);
    }
  }

  lemma NothingDecoded()
    ensures PercentDecode([]) == []
  {
  }

  /** Visible ASCII: no blanks, no control characters. */
  predicate Visible(text: Octets) {
    forall i :: 0 <= i < |text| ==> 0x21 <= text[i] <= 0x7e
  }

  lemma VisibleIsTrimmed(text: Octets)
    requires Visible(text)
    ensures Trim(text) == text
  {
    hide TrimStart, TrimEnd;
    if text == [] {
      NothingTrimmed();
    } else {
      FirstIsVisible(text);
      VisibleEnd(text);
    }
  }

  lemma NothingTrimmed()
    ensures TrimStart([]) == [] && TrimEnd([]) == []
  {
  }

  /** No white character begins or ends with a visible ASCII character. */
  lemma NotWhite(c: Octets)
    requires c != [] && (0x21 <= c[0] <= 0x7e || 0x21 <= c[|c| - 1] <= 0x7e)
    ensures !White(c)
  {
  }

  lemma {:induction false} SlashIsFound(host: Octets, path: Octets)
    requires 0x2f !in host && path != [] && path[0] == 0x2f
    ensures FromSlash(host + path) == Some(path)
  {
    if host == [] {
      assert host + path == path;
    } else {
      assert (host + path)[1..] == host[1..] + path;
      SlashIsFound(host[1..], path);
    }
  }

  const FILE_PREFIX: Octets := [0x37, SEMICOLON] + FILE_SCHEME

  /** A directory announced as a file URL arrives with its percent signs resolved, whatever the host. */
  lemma FileUrlArrives(host: Octets, path: Octets)
    requires Visible(host) && 0x2f !in host && path != [] && path[0] == 0x2f
    ensures Run(Normal, [ESC, BRACKET] + (FILE_PREFIX + (host + Percent(path))) + [BEL]) ==
            (Normal, if 9 + |host| + |Percent(path)| <= 4096 && Trim(Lossy(path)) != [] then [Cwd(Trim(Lossy(path)))] else [])
  {
    hide Run, Lossy, SplitOnce, PercentDecode, Percent, FromSlash, Trim;
    var rest := host + Percent(path);
    assert Visible(rest);
    assert Visible(FILE_SCHEME + rest);
    VisibleIsTrimmed(FILE_SCHEME + rest);
    LossyAsciiPrefix(rest, []);
    assert rest + [] == rest;
    LossyNothing();
    assert FILE_PREFIX + rest == [0x37] + [SEMICOLON] + (FILE_SCHEME + rest);
    SplitsAt([0x37], SEMICOLON, FILE_SCHEME + rest);
    assert (FILE_SCHEME + rest)[..7] == FILE_SCHEME && (FILE_SCHEME + rest)[7..] == rest;
    PercentStartsWithSlash(path);
    SlashIsFound(host, Percent(path));
    PercentRoundTrips(path);
    PlainVisible(FILE_PREFIX + rest);
    Arrives(FILE_PREFIX, rest);
  }

  lemma LossyNothing()
    ensures Lossy([]) == []
  {
  }

  lemma PercentStartsWithSlash(path: Octets)
    requires path != [] && path[0] == 0x2f
    ensures Percent(path) != [] && Percent(path)[0] == 0x2f
  {
  }

  lemma PlainVisible(text: Octets)
    requires Visible(text)
    ensures Plain(text)
  {
  }

  /** Without a host part the payload itself is the directory. */
  lemma BarePathArrives(path: Octets)
    requires Plain(path) && var t := Trim(Lossy(path)); |t| < 7 || t[..7] != FILE_SCHEME
    ensures var told := Trim(Trim(Lossy(path)));
            Run(Normal, [ESC, BRACKET] + ([0x37, SEMICOLON] + path) + [BEL]) ==
              (Normal, if 2 + |path| <= 4096 && told != [] then [Cwd(told)] else [])
  {
    hide Run, Trim, Lossy, SplitOnce;
    var prefix := [0x37, SEMICOLON];
    assert prefix + Lossy(path) == [0x37] + [SEMICOLON] + Lossy(path);
    SplitsAt([0x37], SEMICOLON, Lossy(path));
    Arrives(prefix, path);
  }

  // ----- what is white -----

  /** The bytes of a character below U+10000 (section 3 of RFC 3629). */
  function Character(point: nat): Octets
    requires point < 0x1_0000
  {
    if point < 0x80 then [point]
    else if point < 0x800 then [0xc0 + point / 0x40, 0x80 + point % 0x40]
    else [0xe0 + point / 0x1000, 0x80 + point / 0x40 % 0x40, 0x80 + point % 0x40]
  }

  /** The characters with the Unicode property White_Space. */
  predicate Blank(point: nat) {
    || 0x9 <= point <= 0xd || point == 0x20 || point == 0x85 || point == 0xa0 || point == 0x1680
    || 0x2000 <= point <= 0x200a || point == 0x2028 || point == 0x2029 || point == 0x202f || point == 0x205f || point == 0x3000
  }

  lemma WhiteIff(point: nat)
    requires point < 0x1_0000
    ensures White(Character(point)) <==> Blank(point)
  {
    if point >= 0x800 {
      ThreeBytes(point);
    } else if point >= 0x80 {
      TwoBytes(point);
    }
  }

  lemma TwoBytes(point: nat)
    requires 0x80 <= point < 0x800
    ensures White([0xc0 + point / 0x40, 0x80 + point % 0x40]) <==> Blank(point)
  {
    assert point == 0x40 * (point / 0x40) + point % 0x40;
  }

  lemma ThreeBytes(point: nat)
    requires 0x800 <= point < 0x1_0000
    ensures White([0xe0 + point / 0x1000, 0x80 + point / 0x40 % 0x40, 0x80 + point % 0x40]) <==> Blank(point)
  {
    var a, b, c := point / 0x1000, point / 0x40 % 0x40, point % 0x40;
    assert point == 0x1000 * a + 0x40 * b + c;
  }

  /** Blanks and the control characters that space text are trimmed from both ends. */
  lemma {:induction false} SpacesComeOff(left: nat, text: Octets, right: nat)
    requires Visible(text) && text != []
    ensures Trim(seq(left, _ => 0x20) + text + seq(right, _ => 0x20)) == text
  {
    LeadingSpaces(left, text + seq(right, _ => 0x20));
    assert seq(left, _ => 0x20) + (text + seq(right, _ => 0x20)) == seq(left, _ => 0x20) + text + seq(right, _ => 0x20);
    FirstIsVisible(text + seq(right, _ => 0x20));
    TrailingSpaces(text, right);
  }

  lemma FirstIsVisible(text: Octets)
    requires text != [] && 0x21 <= text[0] <= 0x7e
    ensures TrimStart(text) == text
  {
    hide White;
    NotWhite(text[..1]);
    if |text| >= 2 {
      NotWhite(text[..2]);
    }
    if |text| >= 3 {
      NotWhite(text[..3]);
    }
  }

  lemma {:induction false} LeadingSpaces(left: nat, text: Octets)
    ensures TrimStart(seq(left, _ => 0x20) + text) == TrimStart(text)
  {
    hide TrimStart;
    var all := seq(left, _ => 0x20) + text;
    if left == 0 {
      assert all == text;
    } else {
      var after := seq(left - 1, _ => 0x20) + text;
      assert all == [0x20] + after;
      SpaceBegins(after);
      LeadingSpaces(left - 1, text);
    }
  }

  lemma SpaceBegins(text: Octets)
    ensures TrimStart([0x20] + text) == TrimStart(text)
  {
    hide White;
    var all := [0x20] + text;
    assert all[..1] == [0x20] && all[1..] == text;
    SpaceIsWhite();
  }

  lemma {:induction false} TrailingSpaces(text: Octets, right: nat)
    requires Visible(text) && text != []
    ensures TrimEnd(text + seq(right, _ => 0x20)) == text
  {
    hide TrimEnd;
    var all := text + seq(right, _ => 0x20);
    if right == 0 {
      assert all == text;
      VisibleEnd(text);
    } else {
      var before := text + seq(right - 1, _ => 0x20);
      assert all == before + [0x20];
      SpaceEnds(before);
      TrailingSpaces(text, right - 1);
    }
  }

  lemma SpaceEnds(text: Octets)
    ensures TrimEnd(text + [0x20]) == TrimEnd(text)
  {
    hide White;
    var all := text + [0x20];
    assert all[|all| - 1..] == [0x20] && all[..|all| - 1] == text;
    SpaceIsWhite();
  }

  lemma SpaceIsWhite()
    ensures White([0x20])
  {
  }

  lemma VisibleEnd(text: Octets)
    requires text != [] && 0x21 <= text[|text| - 1] <= 0x7e
    ensures TrimEnd(text) == text
  {
    hide White;
    var n := |text|;
    EndNotWhite(text, 1);
    if n >= 2 {
      EndNotWhite(text, 2);
    }
    if n >= 3 {
      EndNotWhite(text, 3);
    }
  }

  lemma EndNotWhite(text: Octets, k: nat)
    requires 0 < k <= |text| && 0x21 <= text[|text| - 1] <= 0x7e
    ensures !White(text[|text| - k..])
  {
    hide White;
    var c := text[|text| - k..];
    assert c[k - 1] == text[|text| - 1];
    NotWhite(c);
  }
}
