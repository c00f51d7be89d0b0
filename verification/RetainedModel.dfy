/** Output kept for replay: of jobs and of terminals. */
module RetainedModel {
  import opened Basics

  datatype Chunk = Chunk(number: nat, bytes: Octets)

  /** The number of the chunk that follows `i` others; it stops growing at the end of 64 bits. */
  function Number(i: nat): nat {
    Min(i + 1, U64_MAX)
  }

  /** Chunks `start` up to `end` of everything written, as they were numbered. */
  function Numbered(history: seq<Octets>, start: nat, end: nat): (r: seq<Chunk>)
    requires start <= end <= |history|
    ensures |r| == end - start
  {
    seq(end - start, i requires 0 <= i < end - start => Chunk(Number(start + i), history[start + i]))
  }

  function Total(pieces: seq<Octets>): nat {
    if pieces == [] then 0 else |pieces[0]| + Total(pieces[1..])
  }

  function SaturatingSub(a: nat, b: nat): nat {
    if a < b then 0 else a - b
  }

  /** Drop the oldest chunks until the byte count is within the limit. */
  function Trim(chunks: seq<Chunk>, bytes: nat, limit: nat): (seq<Chunk>, nat) {
    if bytes <= limit || chunks == [] then (chunks, bytes)
    else Trim(chunks[1..], SaturatingSub(bytes, |chunks[0].bytes|), limit)
  }

  /** The chunks numbered above a cursor. */
  function After(chunks: seq<Chunk>, cursor: nat): seq<Chunk> {
    if chunks == [] then []
    else (if chunks[0].number > cursor then [chunks[0]] else []) + After(chunks[1..], cursor)
  }

  // ----- the output of a job -----

  datatype Log = Log(
    enabled: bool, limit: nat, chunks: seq<Chunk>,
    oldest: nat, latest: nat, bytes: nat, truncated: bool)

  function Empty(enabled: bool, limit: nat): Log {
    Log(enabled, limit, [], 0, 0, 0, false)
  }

  function Append(l: Log, piece: Octets): Log {
    if !l.enabled || piece == [] then l
    else
      var number := SaturatingAdd(l.latest, 1);
      var (chunks, bytes) := Trim(l.chunks + [Chunk(number, piece)], SaturatingAdd(l.bytes, |piece|), l.limit);
      var dropped := |chunks| <= |l.chunks|;
      l.(chunks := chunks, bytes := bytes, latest := number,
         oldest := if dropped then (if chunks == [] then 0 else chunks[0].number)
                   else if l.oldest == 0 then number else l.oldest,
         truncated := l.truncated || dropped)
  }

  function AppendAll(l: Log, pieces: seq<Octets>): Log {
    if pieces == [] then l else Append(AppendAll(l, pieces[..|pieces| - 1]), pieces[|pieces| - 1])
  }

  function Extended(h: seq<Octets>, piece: Octets): seq<Octets> {
    if piece == [] then h else h + [piece]
  }

  /** What is written to an enabled log: empty pieces are ignored. */
  function Written(pieces: seq<Octets>): seq<Octets> {
    if pieces == [] then [] else Extended(Written(pieces[..|pieces| - 1]), pieces[|pieces| - 1])
  }

  function ChunksAfter(l: Log, cursor: Option<nat>): (bool, seq<Chunk>) {
    var after := if cursor.Some? then cursor.value else 0;
    var gap := cursor.Some? && (if l.oldest > 0 then after < l.oldest else l.truncated && after < l.latest);
    (gap, After(l.chunks, after))
  }

  function GapNext(l: Log, after: nat): nat {
    if l.oldest > 0 then l.oldest else Max(l.latest, SaturatingAdd(after, 1))
  }

  // ----- one subscriber of that output -----

  datatype Event = Gap(next: nat) | Output(chunk: Chunk) | Truncated

  function Outputs(chunks: seq<Chunk>): seq<Event> {
    if chunks == [] then [] else [Output(chunks[0])] + Outputs(chunks[1..])
  }

  /** `output_chunks_after`, without the exit notice. */
  function Poll(l: Log, after: nat): seq<Event> {
    var (gap, chunks) := ChunksAfter(l, Some(after));
    var events := (if gap then [Gap(GapNext(l, after))] else []) + Outputs(chunks);
    if chunks == [] && l.truncated && l.latest > after then
      (if events == [] then [Gap(l.latest)] else events) + [Truncated]
    else events
  }

  /** How one event moves the cursor of a subscription. */
  function Moved(cursor: nat, e: Event): nat {
    match e
    case Gap(next) => Max(cursor, next)
    case Output(chunk) => Max(cursor, chunk.number)
    case Truncated => cursor
  }

  function MovedAll(cursor: nat, events: seq<Event>): nat
    decreases |events|
  {
    if events == [] then cursor else MovedAll(Moved(cursor, events[0]), events[1..])
  }

  function ChunksIn(events: seq<Event>): seq<Chunk> {
    if events == [] then []
    else (if events[0].Output? then [events[0].chunk] else []) + ChunksIn(events[1..])
  }

  predicate Reports(events: seq<Event>) {
    exists i :: 0 <= i < |events| && events[i].Gap?
  }

  // ----- the output of a terminal -----

  const RETENTION: nat := 1024 * 1024

  datatype Terminal = Terminal(chunks: seq<Chunk>, latest: nat, bytes: nat, closed: bool)

  function Opened(): Terminal {
    Terminal([], 0, 0, false)
  }

  function RecordOutput(t: Terminal, piece: Octets): Terminal {
    if t.closed || piece == [] then t
    else
      var number := SaturatingAdd(t.latest, 1);
      var (chunks, bytes) := Trim(t.chunks + [Chunk(number, piece)], t.bytes + |piece|, RETENTION);
      t.(chunks := chunks, bytes := bytes, latest := number)
  }

  /** What is broadcast while a piece is recorded. */
  function Broadcast(t: Terminal, piece: Octets): seq<Chunk> {
    if t.closed || piece == [] then [] else [Chunk(SaturatingAdd(t.latest, 1), piece)]
  }

  function RecordAll(t: Terminal, pieces: seq<Octets>): Terminal {
    if pieces == [] then t else RecordOutput(RecordAll(t, pieces[..|pieces| - 1]), pieces[|pieces| - 1])
  }

  function BroadcastAll(t: Terminal, pieces: seq<Octets>): seq<Chunk> {
    if pieces == [] then []
    else BroadcastAll(t, pieces[..|pieces| - 1]) +
         Broadcast(RecordAll(t, pieces[..|pieces| - 1]), pieces[|pieces| - 1])
  }

  /** `replay_events`: the announced gap, if any, and the chunks. */
  function Replay(t: Terminal, cursor: Option<nat>): (Option<nat>, seq<Chunk>) {
    if t.chunks == [] then (None, [])
    else
      var first := t.chunks[0].number;
      var wanted := if cursor.Some? then SaturatingAdd(cursor.value, 1) else first;
      (if wanted < first then Some(first) else None,
       if cursor.Some? then After(t.chunks, cursor.value) else t.chunks)
  }
}
