/** What the retained output promises to those who replay and follow it. */
module Retained {
  import opened Basics
  import opened RetainedModel

  // ----- what is kept -----

  /** The kept chunks are the newest ones, numbered as they were written. */
  ghost predicate Newest(chunks: seq<Chunk>, latest: nat, history: seq<Octets>) {
    && |chunks| <= |history|
    && chunks == Numbered(history, |history| - |chunks|, |history|)
    && latest == Min(|history|, U64_MAX)
  }

  /** No longer suffix than the one from `k` is within the limit, and that one is. */
  ghost predicate Longest(history: seq<Octets>, k: nat, limit: nat) {
    k <= |history| && Total(history[k..]) <= limit && (k > 0 ==> Total(history[k - 1..]) > limit)
  }

  lemma {:induction false} TotalAppend(a: seq<Octets>, piece: Octets)
    ensures Total(a + [piece]) == Total(a) + |piece|
  {
    if a == [] {
      assert (a + [piece])[1..] == [];
    } else {
      assert (a + [piece])[1..] == a[1..] + [piece];
      TotalAppend(a[1..], piece);
    }
  }

  lemma {:induction false} SuffixTotal(a: seq<Octets>, k: nat)
    requires k <= |a|
    ensures Total(a[k..]) <= Total(a)
  {
    if k == 0 {
      assert a[0..] == a;
    } else {
      SuffixTotal(a[1..], k - 1);
      assert a[1..][k - 1..] == a[k..];
    }
  }

  lemma NumberedAt(h: seq<Octets>, k: nat, i: nat)
    requires k + i < |h| <= U64_MAX
    ensures Numbered(h, k, |h|)[i] == Chunk(k + i + 1, h[k + i])
  {
    assert Number(k + i) == k + i + 1;
  }

  lemma NumberedTail(h: seq<Octets>, k: nat)
    requires k < |h|
    ensures Numbered(h, k, |h|)[0] == Chunk(Number(k), h[k]) && Numbered(h, k, |h|)[1..] == Numbered(h, k + 1, |h|)
    ensures Total(h[k..]) == |h[k]| + Total(h[k + 1..])
  {
    assert h[k..][1..] == h[k + 1..];
  }

  lemma {:induction false} TrimKeepsNewest(h: seq<Octets>, k: nat, bytes: nat, limit: nat)
    requires k <= |h|
    ensures var kept := Trim(Numbered(h, k, |h|), bytes, limit).0;
            |kept| <= |h| - k && kept == Numbered(h, |h| - |kept|, |h|)
    decreases |h| - k
  {
    if bytes > limit && k < |h| {
      NumberedTail(h, k);
      TrimKeepsNewest(h, k + 1, SaturatingSub(bytes, |h[k]|), limit);
    }
  }

  lemma {:induction false} TrimKeepsLongest(h: seq<Octets>, k: nat, limit: nat)
    requires k <= |h| && (k > 0 ==> Total(h[k - 1..]) > limit)
    ensures var (kept, bytes) := Trim(Numbered(h, k, |h|), Total(h[k..]), limit);
            |kept| <= |h| && bytes == Total(h[|h| - |kept|..]) && Longest(h, |h| - |kept|, limit)
    decreases |h| - k
  {
    TrimKeepsNewest(h, k, Total(h[k..]), limit);
    if k < |h| {
      NumberedTail(h, k);
      if Total(h[k..]) > limit {
        TrimKeepsLongest(h, k + 1, limit);
      }
    } else {
      assert h[k..] == [];
    }
  }

  /** Appending moves the start of what fits, never back. */
  lemma StillTooLong(h: seq<Octets>, k: nat, piece: Octets, limit: nat)
    requires Longest(h, k, limit)
    ensures var more := h + [piece];
            Total(more[k..]) == Total(h[k..]) + |piece| && (k > 0 ==> Total(more[k - 1..]) > limit)
  {
    var more := h + [piece];
    assert more[k..] == h[k..] + [piece];
    TotalAppend(h[k..], piece);
    if k > 0 {
      assert more[k - 1..] == h[k - 1..] + [piece];
      TotalAppend(h[k - 1..], piece);
    }
  }

  lemma NumberedAppend(h: seq<Octets>, k: nat, piece: Octets)
    requires k <= |h|
    ensures var more := h + [piece];
            Numbered(h, k, |h|) + [Chunk(SaturatingAdd(Min(|h|, U64_MAX), 1), piece)] == Numbered(more, k, |more|)
  {
    var more := h + [piece];
    assert SaturatingAdd(Min(|h|, U64_MAX), 1) == Number(|h|);
    assert Numbered(more, k, |more|)[|h| - k] == Chunk(Number(|h|), piece);
    assert Numbered(more, k, |more|)[..|h| - k] == Numbered(h, k, |h|);
  }

  // ----- the output of a job -----

  function Start(h: seq<Octets>, chunks: seq<Chunk>): int {
    |h| - |chunks|
  }

  ghost predicate Faithful(l: Log, h: seq<Octets>) {
    && Newest(l.chunks, l.latest, h)
    && l.oldest == (if l.chunks == [] then 0 else l.chunks[0].number)
    && l.truncated == (|l.chunks| < |h|)
  }

  ghost predicate Exact(l: Log, h: seq<Octets>) {
    Faithful(l, h) && l.bytes == Total(h[Start(h, l.chunks)..]) && Longest(h, Start(h, l.chunks), l.limit)
  }

  lemma AppendKeepsFaithful(l: Log, h: seq<Octets>, piece: Octets)
    requires Faithful(l, h) && l.enabled
    ensures Faithful(Append(l, piece), Extended(h, piece))
  {
    hide Trim, Total;
    if piece != [] {
      var more := h + [piece];
      NumberedAppend(h, Start(h, l.chunks), piece);
      TrimKeepsNewest(more, Start(h, l.chunks), SaturatingAdd(l.bytes, |piece|), l.limit);
    }
  }

  lemma AppendKeepsExact(l: Log, h: seq<Octets>, piece: Octets)
    requires Exact(l, h) && l.enabled && (piece == [] || l.bytes + |piece| <= U64_MAX)
    ensures Exact(Append(l, piece), Extended(h, piece))
  {
    hide Trim, Total, Numbered;
    AppendKeepsFaithful(l, h, piece);
    if piece != [] {
      var more, k := h + [piece], Start(h, l.chunks);
      NumberedAppend(h, k, piece);
      StillTooLong(h, k, piece, l.limit);
      TrimKeepsLongest(more, k, l.limit);
    }
  }

  /** Whatever is appended, and however the counters saturate, a contiguous suffix is kept. */
  lemma {:induction false} RunKeepsNewest(limit: nat, pieces: seq<Octets>)
    ensures var l := AppendAll(Empty(true, limit), pieces);
            Faithful(l, Written(pieces)) && l.enabled && l.limit == limit
  {
    hide Append, Faithful;
    if pieces == [] {
      EmptyIsExact(limit);
    } else {
      var front, piece := pieces[..|pieces| - 1], pieces[|pieces| - 1];
      RunKeepsNewest(limit, front);
      var l := AppendAll(Empty(true, limit), front);
      AppendKeepsFaithful(l, Written(front), piece);
      AppendFrame(l, piece);
      assert Written(pieces) == Extended(Written(front), piece);
    }
  }

  lemma EmptyIsExact(limit: nat)
    ensures Exact(Empty(true, limit), []) && Faithful(Empty(true, limit), [])
  {
  }

  lemma AppendFrame(l: Log, piece: Octets)
    ensures Append(l, piece).enabled == l.enabled && Append(l, piece).limit == l.limit
  {
    hide Trim;
  }

  /** No append makes the 64-bit byte count saturate. */
  ghost predicate Countable(limit: nat, h: seq<Octets>) {
    forall i :: 0 <= i < |h| ==> Min(limit, Total(h[..i])) + |h[i]| <= U64_MAX
  }

  /** The log holds the longest suffix within its limit, and counts its bytes exactly. */
  lemma {:induction false} RunKeepsLongest(limit: nat, pieces: seq<Octets>)
    requires Countable(limit, Written(pieces))
    ensures Exact(AppendAll(Empty(true, limit), pieces), Written(pieces))
  {
    hide Append, Exact, Total;
    if pieces == [] {
      EmptyIsExact(limit);
    } else {
      var front, piece := pieces[..|pieces| - 1], pieces[|pieces| - 1];
      var l, h, more := AppendAll(Empty(true, limit), front), Written(front), Written(pieces);
      assert more == Extended(h, piece);
      assert h == more[..|h|];
      forall i | 0 <= i < |h| ensures Min(limit, Total(h[..i])) + |h[i]| <= U64_MAX {
        assert h[..i] == more[..i] && h[i] == more[i];
      }
      RunKeepsLongest(limit, front);
      RunKeepsNewest(limit, front);
      BytesWithin(l, h);
      if piece != [] {
        assert more[|h|] == piece;
      }
      AppendKeepsExact(l, h, piece);
    }
  }

  lemma BytesWithin(l: Log, h: seq<Octets>)
    requires Exact(l, h)
    ensures l.bytes <= Min(l.limit, Total(h)) && l.bytes <= l.limit
  {
    hide Total;
    SuffixTotal(h, Start(h, l.chunks));
  }

  /** A log that is switched off keeps nothing. */
  lemma {:induction false} DisabledKeepsNothing(limit: nat, pieces: seq<Octets>)
    ensures AppendAll(Empty(false, limit), pieces) == Empty(false, limit)
  {
    if pieces != [] {
      DisabledKeepsNothing(limit, pieces[..|pieces| - 1]);
    }
  }

  // ----- replay -----

  /** Where a replay from a cursor begins. */
  function From(k: nat, cursor: nat, n: nat): nat
    requires k <= n
  {
    Max(k, Min(cursor, n))
  }

  lemma {:induction false} AfterNumbered(h: seq<Octets>, k: nat, cursor: nat)
    requires k <= |h| <= U64_MAX
    ensures After(Numbered(h, k, |h|), cursor) == Numbered(h, From(k, cursor, |h|), |h|)
    decreases |h| - k
  {
    hide Numbered;
    if k == |h| {
      NothingNumbered(h);
    } else {
      NumberedTail(h, k);
      NumberedAt(h, k, 0);
      var all, rest := Numbered(h, k, |h|), Numbered(h, k + 1, |h|);
      AfterNumbered(h, k + 1, cursor);
      assert all == [all[0]] + rest;
    }
  }

  lemma NothingNumbered(h: seq<Octets>)
    ensures Numbered(h, |h|, |h|) == []
  {
  }

  /** Replay after an explicit cursor: what it holds and exactly when it announces a gap. */
  lemma ReplayIsExact(l: Log, h: seq<Octets>, cursor: nat)
    requires Faithful(l, h) && |h| <= U64_MAX
    ensures var (gap, chunks) := ChunksAfter(l, Some(cursor));
            var k := Start(h, l.chunks);
            && chunks == Numbered(h, From(k, cursor, |h|), |h|)
            && (gap <==> cursor < k || cursor == k < |h|)
            && (!gap && cursor <= |h| ==> chunks == Numbered(h, cursor, |h|))
            && (gap ==> chunks == l.chunks && GapNext(l, cursor) == if chunks == [] then |h| else k + 1)
  {
    hide After, Numbered, GapNext, Newest;
    ChunksCounted(l, h);
    ReplayChunks(l, h, cursor);
    if l.chunks == [] {
      GapOfEmpty(l, h, cursor);
    } else {
      GapOfNonempty(l, h, cursor);
    }
  }

  lemma ReplayChunks(l: Log, h: seq<Octets>, cursor: nat)
    requires Faithful(l, h) && |h| <= U64_MAX
    ensures |l.chunks| <= |h| && l.chunks == Numbered(h, Start(h, l.chunks), |h|)
    ensures ChunksAfter(l, Some(cursor)).1 == Numbered(h, From(Start(h, l.chunks), cursor, |h|), |h|)
  {
    hide Numbered, After;
    AfterNumbered(h, Start(h, l.chunks), cursor);
  }

  lemma GapOfEmpty(l: Log, h: seq<Octets>, cursor: nat)
    requires Faithful(l, h) && |h| <= U64_MAX && l.chunks == []
    ensures var gap := ChunksAfter(l, Some(cursor)).0;
            (gap <==> cursor < |h|) && (gap ==> GapNext(l, cursor) == |h|)
  {
    hide Numbered, After;
  }

  lemma GapOfNonempty(l: Log, h: seq<Octets>, cursor: nat)
    requires Faithful(l, h) && |h| <= U64_MAX && l.chunks != []
    ensures var k := Start(h, l.chunks);
            && k < |h| && (ChunksAfter(l, Some(cursor)).0 <==> cursor <= k) && GapNext(l, cursor) == k + 1
  {
    hide Numbered, After;
    ChunksCounted(l, h);
    FirstNumber(l, h);
  }

  /** A gap is announced although nothing is missing exactly for the cursor just below a nonempty log. */
  lemma FalseAlarmIff(l: Log, h: seq<Octets>, cursor: nat)
    requires Faithful(l, h) && |h| <= U64_MAX && cursor <= |h|
    ensures var (gap, chunks) := ChunksAfter(l, Some(cursor));
            gap && chunks == Numbered(h, cursor, |h|) <==> l.oldest > 0 && cursor == l.oldest - 1
  {
    hide ChunksAfter, Numbered;
    ReplayIsExact(l, h, cursor);
    FirstNumber(l, h);
  }

  lemma FirstNumber(l: Log, h: seq<Octets>)
    requires Faithful(l, h) && |h| <= U64_MAX
    ensures l.oldest == if l.chunks == [] then 0 else Start(h, l.chunks) + 1
  {
    if l.chunks != [] {
      NumberedAt(h, Start(h, l.chunks), 0);
    }
  }

  /** The very first chunk reaches a subscriber that was already there behind such an alarm. */
  lemma FirstOutputRaisesAlarm(limit: nat, piece: Octets)
    requires piece != [] && |piece| <= limit && |piece| <= U64_MAX
    ensures Poll(Append(Empty(true, limit), piece), 0) == [Gap(1), Output(Chunk(1, piece))]
  {
    var l := Append(Empty(true, limit), piece);
    assert l.chunks == [Chunk(1, piece)] && l.oldest == 1 && !l.truncated;
    assert After(l.chunks, 0) == [Chunk(1, piece)] + After([], 0);
    assert Outputs([Chunk(1, piece)]) == [Output(Chunk(1, piece))] + Outputs([]);
  }

  // ----- a subscription over time -----

  lemma {:induction false} OutputsCarry(chunks: seq<Chunk>)
    ensures ChunksIn(Outputs(chunks)) == chunks && !Reports(Outputs(chunks)) && |Outputs(chunks)| == |chunks|
  {
    if chunks != [] {
      OutputsCarry(chunks[1..]);
      assert Outputs(chunks)[1..] == Outputs(chunks[1..]);
    }
  }

  lemma {:induction false} OutputsMove(h: seq<Octets>, k: nat, cursor: nat)
    requires k <= |h| <= U64_MAX
    ensures MovedAll(cursor, Outputs(Numbered(h, k, |h|))) == if k < |h| then Max(cursor, |h|) else cursor
    decreases |h| - k
  {
    if k < |h| {
      NumberedTail(h, k);
      OutputsMove(h, k + 1, Max(cursor, k + 1));
      assert Outputs(Numbered(h, k, |h|))[1..] == Outputs(Numbered(h, k + 1, |h|));
    }
  }

  /** One look at the log brings the cursor up to date and delivers what `ChunksAfter` returns. */
  lemma PollDelivers(l: Log, h: seq<Octets>, cursor: nat)
    requires Faithful(l, h) && |h| <= U64_MAX
    ensures ChunksIn(Poll(l, cursor)) == ChunksAfter(l, Some(cursor)).1
    ensures Reports(Poll(l, cursor)) <==> ChunksAfter(l, Some(cursor)).0
    ensures MovedAll(cursor, Poll(l, cursor)) == Max(cursor, |h|)
  {
    hide ChunksAfter, GapNext, Numbered;
    ReplayIsExact(l, h, cursor);
    var (gap, chunks) := ChunksAfter(l, Some(cursor));
    var outputs := Outputs(chunks);
    OutputsCarry(chunks);
    var k := From(Start(h, l.chunks), cursor, |h|);
    OutputsMove(h, k, cursor);
    if gap {
      var next := GapNext(l, cursor);
      OutputsMove(h, k, Max(cursor, next));
      assert ([Gap(next)] + outputs)[0] == Gap(next) && ([Gap(next)] + outputs)[1..] == outputs;
      if chunks == [] {
        assert Poll(l, cursor) == [Gap(next), Truncated] || Poll(l, cursor) == [Gap(next)];
        assert [Gap(next), Truncated][1..] == [Truncated] && [Truncated][1..] == [];
        assert Poll(l, cursor)[0] == Gap(next);
      } else {
        assert Poll(l, cursor) == [Gap(next)] + outputs;
        assert Poll(l, cursor)[0] == Gap(next);
      }
    } else {
      assert [] + outputs == outputs;
    }
  }

  /** All that one look tells: a gap with where it ends, the chunks, and that output was cut if nothing is left to show. */
  lemma PollIs(l: Log, h: seq<Octets>, cursor: nat)
    requires Faithful(l, h) && |h| <= U64_MAX
    ensures var k, chunks := Start(h, l.chunks), ChunksAfter(l, Some(cursor)).1;
            Poll(l, cursor) ==
              if l.chunks == [] && cursor < |h| then [Gap(|h|), Truncated]
              else if l.chunks != [] && cursor <= k then [Gap(k + 1)] + Outputs(chunks)
              else Outputs(chunks)
  {
    hide ChunksAfter, GapNext, Numbered;
    ReplayIsExact(l, h, cursor);
    ChunksCounted(l, h);
    var (gap, chunks) := ChunksAfter(l, Some(cursor));
    OutputsCarry(chunks);
    assert [] + Outputs(chunks) == Outputs(chunks);
    assert [Gap(|h|)] + [] + [Truncated] == [Gap(|h|), Truncated];
  }

  datatype Subscriber = Subscriber(log: Log, cursor: nat, received: seq<Chunk>, warned: bool)

  datatype Act = Write(piece: Octets) | Look

  /** `output_attached`, as the subscription takes it in. */
  function Attach(l: Log, after: Option<nat>): Subscriber {
    var (gap, chunks) := ChunksAfter(l, after);
    var asked := if after.Some? then after.value else 0;
    var events := (if gap then [Gap(GapNext(l, asked))] else []) + Outputs(chunks);
    Subscriber(l, MovedAll(Max(asked, l.latest), events), chunks, gap)
  }

  function Acted(s: Subscriber, a: Act): Subscriber {
    match a
    case Write(piece) => s.(log := Append(s.log, piece))
    case Look =>
      var events := Poll(s.log, s.cursor);
      s.(cursor := MovedAll(s.cursor, events), received := s.received + ChunksIn(events),
         warned := s.warned || Reports(events))
  }

  function ActedAll(s: Subscriber, acts: seq<Act>): Subscriber {
    if acts == [] then s else Acted(ActedAll(s, acts[..|acts| - 1]), acts[|acts| - 1])
  }

  function Grown(h: seq<Octets>, acts: seq<Act>): seq<Octets> {
    if acts == [] then h
    else
      var front, a := Grown(h, acts[..|acts| - 1]), acts[|acts| - 1];
      if a.Write? then Extended(front, a.piece) else front
  }

  ghost predicate Genuine(received: seq<Chunk>, cursor: nat, h: seq<Octets>) {
    forall i :: 0 <= i < |received| ==>
      && 1 <= received[i].number <= Min(cursor, |h|) && received[i].bytes == h[received[i].number - 1]
      && (i > 0 ==> received[i - 1].number < received[i].number)
  }

  /** What a subscriber that began after `start` chunks knows. */
  ghost predicate Follows(s: Subscriber, h: seq<Octets>, start: nat) {
    && Faithful(s.log, h) && s.log.enabled
    && s.cursor >= start && (s.cursor <= |h| || s.cursor == start)
    && Genuine(s.received, s.cursor, h)
    && (!s.warned ==> s.received == Numbered(h, Min(start, |h|), Min(s.cursor, |h|)))
  }

  lemma WriteFollows(s: Subscriber, h: seq<Octets>, start: nat, piece: Octets)
    requires Follows(s, h, start) && |Extended(h, piece)| <= U64_MAX
    ensures Follows(Acted(s, Write(piece)), Extended(h, piece), start)
  {
    hide Append, Faithful;
    AppendKeepsFaithful(s.log, h, piece);
    AppendFrame(s.log, piece);
    if piece != [] {
      var more := h + [piece];
      assert Genuine(s.received, s.cursor, more);
      if s.cursor <= |h| {
        assert Numbered(h, Min(start, |h|), Min(s.cursor, |h|)) == Numbered(more, Min(start, |more|), Min(s.cursor, |more|));
      } else {
        assert Numbered(h, Min(start, |h|), Min(s.cursor, |h|)) == [];
        assert Numbered(more, Min(start, |more|), Min(s.cursor, |more|)) == [];
      }
    }
  }

  lemma GenuineMore(received: seq<Chunk>, cursor: nat, h: seq<Octets>, k: nat)
    requires Genuine(received, cursor, h) && k <= |h| <= U64_MAX && (cursor <= k || k == |h|)
    ensures Genuine(received + Numbered(h, k, |h|), Max(cursor, |h|), h)
  {
    var more := Numbered(h, k, |h|);
    var all := received + more;
    forall i | 0 <= i < |all|
      ensures 1 <= all[i].number <= Min(Max(cursor, |h|), |h|) && all[i].bytes == h[all[i].number - 1]
      ensures i > 0 ==> all[i - 1].number < all[i].number
    {
      if i >= |received| {
        assert all[i] == more[i - |received|];
        NumberedAt(h, k, i - |received|);
        if i > |received| {
          assert all[i - 1] == more[i - 1 - |received|];
          NumberedAt(h, k, i - 1 - |received|);
        }
      }
    }
  }

  lemma LookFollows(s: Subscriber, h: seq<Octets>, start: nat)
    requires Follows(s, h, start) && |h| <= U64_MAX
    ensures Follows(Acted(s, Look), h, start) && Acted(s, Look).cursor >= |h|
  {
    hide Poll, ChunksAfter, Faithful, Genuine, ChunksIn, Reports, MovedAll, GapNext;
    PollDelivers(s.log, h, s.cursor);
    ReplayIsExact(s.log, h, s.cursor);
    ChunksCounted(s.log, h);
    GenuineMore(s.received, s.cursor, h, From(Start(h, s.log.chunks), s.cursor, |h|));
    var t := Acted(s, Look);
    if !t.warned {
      if s.cursor <= |h| {
        assert Numbered(h, start, s.cursor) + Numbered(h, s.cursor, |h|) == Numbered(h, start, |h|);
      }
    }
  }

  lemma ChunksCounted(l: Log, h: seq<Octets>)
    requires Faithful(l, h)
    ensures |l.chunks| <= |h|
  {
  }

  lemma AttachFollows(l: Log, h: seq<Octets>, after: Option<nat>)
    requires Faithful(l, h) && l.enabled && |h| <= U64_MAX
    ensures |l.chunks| <= |h|
    ensures var start: nat := if after.Some? then after.value else Start(h, l.chunks);
            Follows(Attach(l, after), h, start) && Attach(l, after).cursor >= |h|
  {
    hide ChunksAfter, GapNext, Reports, Genuine, Numbered, MovedAll;
    ChunksCounted(l, h);
    var asked := if after.Some? then after.value else 0;
    var k := From(Start(h, l.chunks), asked, |h|);
    AttachReplays(l, h, after);
    AttachMoves(l, h, after);
    EmptyGenuine(h);
    GenuineMore([], 0, h, k);
    assert [] + Numbered(h, k, |h|) == Numbered(h, k, |h|);
    GenuineUpTo(Numbered(h, k, |h|), |h|, Max(asked, |h|), h);
  }

  lemma EmptyGenuine(h: seq<Octets>)
    ensures Genuine([], 0, h)
  {
  }

  lemma GenuineUpTo(received: seq<Chunk>, cursor: nat, higher: nat, h: seq<Octets>)
    requires Genuine(received, cursor, h) && cursor <= higher
    ensures Genuine(received, higher, h)
  {
  }

  lemma AttachReplays(l: Log, h: seq<Octets>, after: Option<nat>)
    requires Faithful(l, h) && |h| <= U64_MAX
    ensures var asked := if after.Some? then after.value else 0;
            var k := Start(h, l.chunks);
            var s := Attach(l, after);
            && s.log == l && s.received == Numbered(h, From(k, asked, |h|), |h|)
            && (s.warned <==> after.Some? && (asked < k || asked == k < |h|))
  {
    hide GapNext, MovedAll, Outputs;
    AfterNumbered(h, Start(h, l.chunks), if after.Some? then after.value else 0);
    if after.Some? {
      ReplayIsExact(l, h, after.value);
    }
  }

  lemma AttachMoves(l: Log, h: seq<Octets>, after: Option<nat>)
    requires Faithful(l, h) && |h| <= U64_MAX
    ensures Attach(l, after).cursor == Max(if after.Some? then after.value else 0, |h|)
  {
    hide ChunksAfter, GapNext, Numbered;
    var asked := if after.Some? then after.value else 0;
    var (gap, chunks) := ChunksAfter(l, after);
    AttachReplays(l, h, after);
    var k := From(Start(h, l.chunks), asked, |h|);
    OutputsMove(h, k, Max(asked, |h|));
    if gap {
      ReplayIsExact(l, h, asked);
      var next := GapNext(l, asked);
      assert Max(Max(asked, |h|), next) == Max(asked, |h|);
      assert ([Gap(next)] + Outputs(chunks))[1..] == Outputs(chunks);
    } else {
      assert [] + Outputs(chunks) == Outputs(chunks);
    }
  }

  lemma {:induction false} ActsFollow(s: Subscriber, h: seq<Octets>, start: nat, acts: seq<Act>)
    requires Follows(s, h, start) && |Grown(h, acts)| <= U64_MAX
    ensures Follows(ActedAll(s, acts), Grown(h, acts), start)
    ensures acts != [] && acts[|acts| - 1].Look? ==> ActedAll(s, acts).cursor >= |Grown(h, acts)|
  {
    hide Acted, Follows;
    if acts != [] {
      var front, a := acts[..|acts| - 1], acts[|acts| - 1];
      ActsFollow(s, h, start, front);
      if a.Write? {
        WriteFollows(ActedAll(s, front), Grown(h, front), start, a.piece);
      } else {
        LookFollows(ActedAll(s, front), Grown(h, front), start);
      }
    }
  }

  /**
   * Over a whole subscription: chunks arrive genuine, in order and once; and once the subscriber
   * has looked and was never warned of a gap, it holds everything from where it began to the end.
   */
  lemma SubscriberMissesNothingSilently(l: Log, h: seq<Octets>, after: Option<nat>, acts: seq<Act>)
    requires Faithful(l, h) && l.enabled && |Grown(h, acts)| <= U64_MAX && |h| <= U64_MAX
    requires acts == [] || acts[|acts| - 1].Look?
    ensures |l.chunks| <= |h|
    ensures var s, all := ActedAll(Attach(l, after), acts), Grown(h, acts);
            var start: nat := if after.Some? then after.value else Start(h, l.chunks);
            && Genuine(s.received, s.cursor, all)
            && (!s.warned && start <= |all| ==> s.received == Numbered(all, start, |all|))
  {
    hide Acted, Attach, Faithful, Genuine, Numbered;
    AttachFollows(l, h, after);
    var start: nat := if after.Some? then after.value else Start(h, l.chunks);
    ActsFollow(Attach(l, after), h, start, acts);
  }

  // ----- the output of a terminal -----

  ghost predicate Recorded(t: Terminal, h: seq<Octets>) {
    && Newest(t.chunks, t.latest, h)
    && t.bytes == Total(h[Start(h, t.chunks)..])
    && Longest(h, Start(h, t.chunks), RETENTION)
  }

  lemma OpenedIsRecorded()
    ensures Recorded(Opened(), []) && !Opened().closed
  {
  }

  lemma RecordKeeps(t: Terminal, h: seq<Octets>, piece: Octets)
    requires Recorded(t, h) && !t.closed
    ensures Recorded(RecordOutput(t, piece), Extended(h, piece)) && !RecordOutput(t, piece).closed
  {
    hide Trim, Total, Numbered;
    if piece != [] {
      var more, k := h + [piece], Start(h, t.chunks);
      NumberedAppend(h, k, piece);
      StillTooLong(h, k, piece, RETENTION);
      TrimKeepsNewest(more, k, t.bytes + |piece|, RETENTION);
      TrimKeepsLongest(more, k, RETENTION);
    }
  }

  /** The buffer is empty exactly if nothing was written or the last piece was over the limit. */
  lemma EmptyBufferIff(t: Terminal, h: seq<Octets>)
    requires Recorded(t, h)
    ensures t.chunks == [] <==> h == [] || |h[|h| - 1]| > RETENTION
  {
    hide Numbered;
    if h != [] {
      var n := |h|;
      assert h[n..] == [] && h[n - 1..] == [h[n - 1]];
      assert Total(h[n - 1..]) == |h[n - 1]| + Total([]);
      if t.chunks != [] {
        var k := Start(h, t.chunks);
        assert h[k..][n - 1 - k..] == h[n - 1..];
        SuffixTotal(h[k..], n - 1 - k);
      }
    }
  }

  lemma ExtendedConcat(h: seq<Octets>, more: seq<Octets>, piece: Octets)
    ensures h + Extended(more, piece) == Extended(h + more, piece)
  {
    if piece != [] {
      assert h + (more + [piece]) == (h + more) + [piece];
    }
  }

  /** Every recorded piece is kept as the longest suffix that fits, and broadcast under its number. */
  lemma {:induction false} RunRecords(t: Terminal, h: seq<Octets>, pieces: seq<Octets>)
    requires Recorded(t, h) && !t.closed
    ensures var all := h + Written(pieces);
            && Recorded(RecordAll(t, pieces), all) && !RecordAll(t, pieces).closed
            && BroadcastAll(t, pieces) == Numbered(all, |h|, |all|)
  {
    hide RecordOutput, Recorded;
    if pieces == [] {
      assert h + Written(pieces) == h;
    } else {
      var front, piece := pieces[..|pieces| - 1], pieces[|pieces| - 1];
      RunRecords(t, h, front);
      ExtendedConcat(h, Written(front), piece);
      var middle := h + Written(front);
      RecordKeeps(RecordAll(t, front), middle, piece);
      LatestCounts(RecordAll(t, front), middle);
      if piece != [] {
        NumberedAppend(middle, |h|, piece);
      }
    }
  }

  lemma LatestCounts(t: Terminal, h: seq<Octets>)
    requires Recorded(t, h)
    ensures t.latest == Min(|h|, U64_MAX)
  {
  }

  /** Replay after a cursor, when the buffer holds anything: a gap is announced exactly if there is one. */
  lemma RecordedReplay(t: Terminal, h: seq<Octets>, cursor: nat)
    requires Recorded(t, h) && t.chunks != [] && |h| <= U64_MAX
    ensures var k := Start(h, t.chunks);
            var (gap, chunks) := Replay(t, Some(cursor));
            && chunks == Numbered(h, From(k, cursor, |h|), |h|)
            && gap == if cursor < k then Some(k + 1) else None
    ensures Replay(t, None) == (None, Numbered(h, Start(h, t.chunks), |h|))
  {
    hide Total, After;
    var k := Start(h, t.chunks);
    NumberedAt(h, k, 0);
    AfterNumbered(h, k, cursor);
  }

  /** Without an announced gap nothing is missing, except right after a piece over the retention limit. */
  lemma RecordedSilentIff(t: Terminal, h: seq<Octets>, cursor: nat)
    requires Recorded(t, h) && cursor <= |h| <= U64_MAX && Replay(t, Some(cursor)).0.None?
    ensures Replay(t, Some(cursor)).1 == Numbered(h, cursor, |h|)
            <==> cursor == |h| || |h[|h| - 1]| <= RETENTION
  {
    hide Recorded, Numbered;
    EmptyBufferIff(t, h);
    if t.chunks != [] {
      hide Replay;
      StartWithin(t, h);
      RecordedReplay(t, h, cursor);
    }
  }

  lemma StartWithin(t: Terminal, h: seq<Octets>)
    requires Recorded(t, h)
    ensures |t.chunks| <= |h|
  {
  }

  /** Replay followed by the live broadcasts is one unbroken stretch up to the last piece. */
  lemma RecordedMeetsLive(t: Terminal, h: seq<Octets>, cursor: Option<nat>, later: seq<Octets>)
    requires Recorded(t, h) && !t.closed && |h| <= U64_MAX && |h + Written(later)| <= U64_MAX
    requires h != [] ==> |h[|h| - 1]| <= RETENTION
    ensures |t.chunks| <= |h|
    ensures var k: nat := Start(h, t.chunks);
            var all := h + Written(later);
            var (gap, replay) := Replay(t, cursor);
            && replay + BroadcastAll(t, later) ==
               Numbered(all, if cursor.Some? then From(k, cursor.value, |h|) else k, |all|)
            && (gap.None? && cursor.Some? && cursor.value <= |h| ==>
                  replay + BroadcastAll(t, later) == Numbered(all, cursor.value, |all|))
  {
    hide Recorded, BroadcastAll;
    StartWithin(t, h);
    EmptyBufferIff(t, h);
    RunRecords(t, h, later);
    var k: nat := Start(h, t.chunks);
    var start := if cursor.Some? then From(k, cursor.value, |h|) else k;
    if t.chunks != [] {
      RecordedReplay(t, h, if cursor.Some? then cursor.value else 0);
    }
    NumberedMeets(h, start, h + Written(later));
  }

  lemma NumberedMeets(h: seq<Octets>, start: nat, all: seq<Octets>)
    requires start <= |h| <= |all| && h == all[..|h|]
    ensures Numbered(h, start, |h|) + Numbered(all, |h|, |all|) == Numbered(all, start, |all|)
  {
  }

  /** A closed terminal keeps and broadcasts nothing more. */
  lemma {:induction false} ClosedIsSilent(t: Terminal, pieces: seq<Octets>)
    requires t.closed
    ensures RecordAll(t, pieces) == t && BroadcastAll(t, pieces) == []
  {
    if pieces != [] {
      ClosedIsSilent(t, pieces[..|pieces| - 1]);
    }
  }

  // ----- a terminal from its opening on -----

  /** A terminal that was opened and has put out `pieces`. */
  function Session(pieces: seq<Octets>): Terminal {
    RecordAll(Opened(), pieces)
  }

  /**
   From its opening on, a terminal keeps the longest suffix of its output within the
   limit, counts its bytes exactly, and broadcasts every piece under its number.
   */
  lemma SessionRecords(pieces: seq<Octets>)
    ensures Recorded(Session(pieces), Written(pieces)) && !Session(pieces).closed
    ensures BroadcastAll(Opened(), pieces) == Numbered(Written(pieces), 0, |Written(pieces)|)
  {
    hide Recorded, BroadcastAll, Numbered;
    OpenedIsRecorded();
    RunRecords(Opened(), [], pieces);
    assert [] + Written(pieces) == Written(pieces);
  }

  /** Replay after a cursor, unless the last piece was over the limit: a gap is announced exactly if there is one. */
  lemma TerminalReplay(pieces: seq<Octets>, cursor: nat)
    requires var h := Written(pieces); h != [] && |h[|h| - 1]| <= 1024 * 1024 && |h| <= U64_MAX
    ensures var t, h := Session(pieces), Written(pieces);
            && |t.chunks| <= |h|
            && var k: nat, (gap, chunks) := Start(h, t.chunks), Replay(t, Some(cursor));
            && chunks == Numbered(h, From(k, cursor, |h|), |h|)
            && gap == (if cursor < k then Some(k + 1) else None)
            && Replay(t, None) == (None, Numbered(h, k, |h|))
  {
    hide Recorded, Replay, Numbered;
    SessionRecords(pieces);
    EmptyBufferIff(Session(pieces), Written(pieces));
    StartWithin(Session(pieces), Written(pieces));
    RecordedReplay(Session(pieces), Written(pieces), cursor);
  }

  /** Without an announced gap nothing is missing, except right after a piece over the retention limit. */
  lemma SilentReplayIsCompleteIff(pieces: seq<Octets>, cursor: nat)
    requires cursor <= |Written(pieces)| <= U64_MAX && Replay(Session(pieces), Some(cursor)).0.None?
    ensures var h := Written(pieces);
            Replay(Session(pieces), Some(cursor)).1 == Numbered(h, cursor, |h|)
            <==> cursor == |h| || |h[|h| - 1]| <= 1024 * 1024
  {
    hide Recorded, Replay, Numbered;
    SessionRecords(pieces);
    RecordedSilentIff(Session(pieces), Written(pieces), cursor);
  }

  /**
   Whoever attaches to a terminal gets its replay and then the live pieces as one unbroken
   stretch, whatever came before and comes later: everything after its cursor if no gap
   was announced.
   */
  lemma ReplayMeetsLive(pieces: seq<Octets>, cursor: Option<nat>, later: seq<Octets>)
    requires |Written(pieces)| <= U64_MAX && |Written(pieces) + Written(later)| <= U64_MAX
    requires var h := Written(pieces); h != [] ==> |h[|h| - 1]| <= 1024 * 1024
    ensures var t, h := Session(pieces), Written(pieces);
            && |t.chunks| <= |h|
            && var k: nat, all, (gap, replay) := Start(h, t.chunks), h + Written(later), Replay(t, cursor);
            && replay + BroadcastAll(t, later) ==
               Numbered(all, if cursor.Some? then From(k, cursor.value, |h|) else k, |all|)
            && (gap.None? && cursor.Some? && cursor.value <= |h| ==>
                  replay + BroadcastAll(t, later) == Numbered(all, cursor.value, |all|))
  {
    hide Recorded, Replay, Numbered, BroadcastAll;
    SessionRecords(pieces);
    RecordedMeetsLive(Session(pieces), Written(pieces), cursor, later);
  }

  // ----- the objects of the program -----

  class RetainedOutput {
    var enabled: bool
    var limit: nat
    var chunks: seq<Chunk>
    var oldest: nat
    var latest: nat
    var bytes: nat
    var truncated: bool

    ghost function View(): Log
      reads this
    {
      Log(enabled, limit, chunks, oldest, latest, bytes, truncated)
    }

    constructor (enabled: bool, limit: nat)
      ensures View() == Empty(enabled, limit)
    {
      this.enabled, this.limit, chunks, oldest, latest, bytes, truncated := enabled, limit, [], 0, 0, 0, false;
    }

    /** Returns the chunk if it was kept. */
    method AppendPiece(piece: Octets) returns (kept: Option<Chunk>)
      modifies this
      ensures View() == Append(old(View()), piece)
      ensures kept == if enabled && piece != [] && chunks != [] then Some(Chunk(latest, piece)) else None
    {
      if !enabled || piece == [] {
        return None;
      }
      var number := SaturatingAdd(latest, 1);
      latest := number;
      if oldest == 0 {
        oldest := number;
      }
      bytes := SaturatingAdd(bytes, |piece|);
      var chunk := Chunk(number, piece);
      chunks := chunks + [chunk];
      ghost var all, counted, before := chunks, bytes, oldest;
      while bytes > limit && chunks != []
        invariant |chunks| <= |all| && chunks == all[|all| - |chunks|..]
        invariant Trim(all, counted, limit) == Trim(chunks, bytes, limit)
        invariant truncated == (old(truncated) || |chunks| < |all|)
        invariant oldest == if |chunks| == |all| then before else if chunks == [] then 0 else chunks[0].number
        invariant limit == old(limit) && enabled && latest == number
        decreases |chunks|
      {
        bytes := SaturatingSub(bytes, |chunks[0].bytes|);
        chunks := chunks[1..];
        truncated := true;
        oldest := if chunks == [] then 0 else chunks[0].number;
      }
      kept := if chunks != [] && chunks[|chunks| - 1].number == number then Some(chunks[|chunks| - 1]) else None;
    }
  }

  class TerminalOutput {
    var chunks: seq<Chunk>
    var latest: nat
    var bytes: nat
    var closed: bool

    ghost function View(): Terminal
      reads this
    {
      Terminal(chunks, latest, bytes, closed)
    }

    constructor ()
      ensures View() == Opened()
    {
      chunks, latest, bytes, closed := [], 0, 0, false;
    }

    method Record(piece: Octets) returns (sent: seq<Chunk>)
      modifies this
      ensures View() == RecordOutput(old(View()), piece)
      ensures sent == Broadcast(old(View()), piece)
    {
      if closed || piece == [] {
        return [];
      }
      latest := SaturatingAdd(latest, 1);
      bytes := bytes + |piece|;
      chunks := chunks + [Chunk(latest, piece)];
      ghost var all, counted := chunks, bytes;
      while bytes > RETENTION && chunks != []
        invariant Trim(all, counted, RETENTION) == Trim(chunks, bytes, RETENTION)
        invariant !closed && latest == SaturatingAdd(old(latest), 1)
        decreases |chunks|
      {
        bytes := SaturatingSub(bytes, |chunks[0].bytes|);
        chunks := chunks[1..];
      }
      sent := [Chunk(latest, piece)];
    }
  }
}
