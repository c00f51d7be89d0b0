/** Titles and working directories that shells announce in terminal output. */
module OscModel {
  import opened Basics
  import opened Utf8

  const MAX_METADATA: nat := 4096
  const ESC: Byte := 0x1b
  const BEL: Byte := 0x07
  const BACKSLASH: Byte := 0x5c
  const SEMICOLON: Byte := 0x3b
  const BRACKET: Byte := 0x5d
  const EQUALS: Byte := 0x3d

  // ----- text -----

  /** Everything before and after the first `c`. */
  function SplitOnce(text: Octets, c: Byte): Option<(Octets, Octets)> {
    if text == [] then None
    else if text[0] == c then Some(([], text[1..]))
    else
      var rest := SplitOnce(text[1..], c);
      if rest.None? then None else Some(([text[0]] + rest.value.0, rest.value.1))
  }

  /** The encodings of the characters with the Unicode property White_Space. */
  predicate White(c: Octets) {
    || (|c| == 1 && (9 <= c[0] <= 13 || c[0] == 32))
    || (|c| == 2 && c[0] == 0xc2 && (c[1] == 0x85 || c[1] == 0xa0))
    || (|c| == 3 && c[0] == 0xe1 && c[1] == 0x9a && c[2] == 0x80)
    || (|c| == 3 && c[0] == 0xe2 && c[1] == 0x80 && (0x80 <= c[2] <= 0x8a || c[2] == 0xa8 || c[2] == 0xa9 || c[2] == 0xaf))
    || (|c| == 3 && c[0] == 0xe2 && c[1] == 0x81 && c[2] == 0x9f)
    || (|c| == 3 && c[0] == 0xe3 && c[1] == 0x80 && c[2] == 0x80)
  }

  function TrimStart(text: Octets): Octets {
    if |text| >= 1 && White(text[..1]) then TrimStart(text[1..])
    else if |text| >= 2 && White(text[..2]) then TrimStart(text[2..])
    else if |text| >= 3 && White(text[..3]) then TrimStart(text[3..])
    else text
  }

  function TrimEnd(text: Octets): Octets {
    var n := |text|;
    if n >= 1 && White(text[n - 1..]) then TrimEnd(text[..n - 1])
    else if n >= 2 && White(text[n - 2..]) then TrimEnd(text[..n - 2])
    else if n >= 3 && White(text[n - 3..]) then TrimEnd(text[..n - 3])
    else text
  }

  function Trim(text: Octets): Octets {
    TrimEnd(TrimStart(text))
  }

  function TrimQuotes(text: Octets): Octets {
    if text != [] && text[0] == 0x22 then TrimQuotes(text[1..])
    else if text != [] && text[|text| - 1] == 0x22 then TrimQuotes(text[..|text| - 1])
    else text
  }

  function NonEmpty(text: Octets): Option<Octets> {
    if Trim(text) == [] then None else Some(Trim(text))
  }

  function Hex(b: Byte): (r: Option<nat>)
    ensures r.Some? ==> r.value < 16
  {
    if 0x30 <= b <= 0x39 then Some(b - 0x30)
    else if 0x61 <= b <= 0x66 then Some(b - 0x61 + 10)
    else if 0x41 <= b <= 0x46 then Some(b - 0x41 + 10)
    else None
  }

  /** The byte an escaped text begins with, and how long it is written. */
  function FirstEscaped(b: Octets): (r: (Byte, nat))
    requires b != []
    ensures 1 <= r.1 <= |b|
  {
    if |b| >= 2 && b[0] == BACKSLASH && b[1] == BACKSLASH then (BACKSLASH, 2)
    else if |b| >= 4 && b[0] == BACKSLASH && b[1] == 0x78 && Hex(b[2]).Some? && Hex(b[3]).Some? then
      (16 * Hex(b[2]).value + Hex(b[3]).value, 4)
    else (b[0], 1)
  }

  function Unescape(b: Octets): Octets {
    if b == [] then [] else [FirstEscaped(b).0] + Unescape(b[FirstEscaped(b).1..])
  }

  function PercentDecode(b: Octets): Octets {
    if b == [] then []
    else if |b| >= 3 && b[0] == 0x25 && Hex(b[1]).Some? && Hex(b[2]).Some? then
      [16 * Hex(b[1]).value + Hex(b[2]).value] + PercentDecode(b[3..])
    else [b[0]] + PercentDecode(b[1..])
  }

  // ----- one sequence -----

  datatype Metadata = Title(text: Octets) | Cwd(path: Octets)

  function AsCwd(path: Option<Octets>): Option<Metadata> {
    if path.None? then None else Some(Cwd(path.value))
  }

  /** From the first slash on. */
  function FromSlash(text: Octets): Option<Octets> {
    if text == [] then None else if text[0] == 0x2f then Some(text) else FromSlash(text[1..])
  }

  const FILE_SCHEME: Octets := [0x66, 0x69, 0x6c, 0x65, 0x3a, 0x2f, 0x2f]

  /** `file://host/path`, or a bare path. */
  function Osc7(payload: Octets): Option<Octets> {
    var text := Trim(payload);
    if |text| < 7 || text[..7] != FILE_SCHEME then NonEmpty(text)
    else
      var path := FromSlash(text[7..]);
      if path.None? then None else NonEmpty(Lossy(PercentDecode(path.value)))
  }

  const PROPERTY: Octets := [0x50]
  const CWD: Octets := [0x43, 0x77, 0x64]

  function Osc633(payload: Octets): Option<Metadata> {
    var parts := SplitOnce(payload, SEMICOLON);
    if parts.None? || parts.value.0 != PROPERTY then None
    else
      var pair := SplitOnce(parts.value.1, EQUALS);
      if pair.None? || pair.value.0 != CWD then None
      else AsCwd(NonEmpty(Lossy(Unescape(pair.value.1))))
  }

  const INTEGRATION: Octets := [0x36, 0x33, 0x33]

  function Metadatum(text: Octets): Option<Metadata> {
    var parts := SplitOnce(text, SEMICOLON);
    if parts.None? then None
    else
      var (kind, payload) := parts.value;
      if kind == [0x30] || kind == [0x32] then
        var title := NonEmpty(payload);
        if title.None? then None else Some(Title(title.value))
      else if kind == [0x37] then AsCwd(Osc7(payload))
      else if kind == INTEGRATION then Osc633(payload)
      else if kind == [0x39] then
        var inner := SplitOnce(payload, SEMICOLON);
        if inner.None? || inner.value.0 != [0x39] then None
        else AsCwd(NonEmpty(TrimQuotes(Trim(inner.value.1))))
      else None
  }

  // ----- the parser -----

  datatype State = Normal | Escape | Osc(buffer: Octets, escape: bool)

  function Stored(buffer: Octets, b: Byte): Octets {
    if |buffer| < MAX_METADATA then buffer + [b] else buffer
  }

  function Announced(buffer: Octets): seq<Metadata> {
    var m := Metadatum(Lossy(buffer));
    if m.None? then [] else [m.value]
  }

  function Step(s: State, b: Byte): (State, seq<Metadata>) {
    match s
    case Normal => (if b == ESC then Escape else Normal, [])
    case Escape => (if b == BRACKET then Osc([], false) else if b == ESC then Escape else Normal, [])
    case Osc(buffer, true) =>
      if b == BACKSLASH then (Normal, Announced(buffer))
      else (Osc(Stored(Stored(buffer, ESC), b), false), [])
    case Osc(buffer, false) =>
      if b == BEL then (Normal, Announced(buffer))
      else if b == ESC then (Osc(buffer, true), [])
      else if |buffer| < MAX_METADATA then (Osc(buffer + [b], false), [])
      else (Normal, [])
  }

  function Run(s: State, bytes: Octets): (State, seq<Metadata>)
    decreases |bytes|
  {
    if bytes == [] then (s, [])
    else
      var (next, first) := Step(s, bytes[0]);
      var (end, rest) := Run(next, bytes[1..]);
      (end, first + rest)
  }

  function RunChunks(s: State, chunks: seq<Octets>): (State, seq<Metadata>)
    decreases |chunks|
  {
    if chunks == [] then (s, [])
    else
      var (next, first) := Run(s, chunks[0]);
      var (end, rest) := RunChunks(next, chunks[1..]);
      (end, first + rest)
  }

  // ----- the shell -----

  function Replaced(text: Octets, c: Byte, with: Octets): Octets {
    if text == [] then [] else (if text[0] == c then with else [text[0]]) + Replaced(text[1..], c, with)
  }

  /** `__rieul_escape_value`: backslashes first, then semicolons. */
  function Escaped(value: Octets): Octets {
    Replaced(Replaced(value, BACKSLASH, [BACKSLASH, BACKSLASH]), SEMICOLON, [BACKSLASH, 0x78, 0x33, 0x62])
  }

  /** `633;P;Cwd=` */
  const CWD_PREFIX: Octets := INTEGRATION + [SEMICOLON] + PROPERTY + [SEMICOLON] + CWD + [EQUALS]

  /** What the shell prints when its directory changes. */
  function Announcement(path: Octets): Octets {
    [ESC, BRACKET] + (CWD_PREFIX + Escaped(path)) + [BEL]
  }
}
