/** Reassembly of media objects: the stream's pieces do not matter, its buffers stay bounded, its groups are gapless. */
module Transport {
  import opened Basics
  import opened BigEndian
  import opened TransportModel

  // ----- feeding in pieces -----

  lemma {:induction false} FeedConcat(accepts: Consumer, s: Framing, a: Octets, b: Octets)
    ensures Feed(accepts, s, a + b) == Feed(accepts, Feed(accepts, s, a), b)
    decreases |b|
  {
    if b == [] {
      assert a + b == a;
    } else {
      assert (a + b)[..|a + b| - 1] == a + b[..|b| - 1];
      FeedConcat(accepts, s, a, b[..|b| - 1]);
    }
  }

  function FeedChunks(accepts: Consumer, s: Framing, chunks: seq<Octets>): Framing
    decreases |chunks|
  {
    if chunks == [] then s else FeedChunks(accepts, Feed(accepts, s, chunks[0]), chunks[1..])
  }

  /** Any partition of the bytes delivers the same objects and ends in the same state as one feed. */
  lemma {:induction false} PartitionDoesNotMatter(accepts: Consumer, s: Framing, chunks: seq<Octets>)
    ensures FeedChunks(accepts, s, chunks) == Feed(accepts, s, Joined(chunks))
    decreases |chunks|
  {
    if chunks != [] {
      PartitionDoesNotMatter(accepts, Feed(accepts, s, chunks[0]), chunks[1..]);
      FeedConcat(accepts, s, chunks[0], Joined(chunks[1..]));
    }
  }

  lemma {:induction false} FailedStays(accepts: Consumer, s: Framing, bytes: Octets)
    requires s.failed
    ensures Feed(accepts, s, bytes) == s
  {
    if bytes != [] {
      FailedStays(accepts, s, bytes[..|bytes| - 1]);
    }
  }

  lemma {:induction false} HeaderFills(accepts: Consumer, s: Framing, bytes: Octets)
    requires !s.failed && s.length.None? && |s.header| + |bytes| < 4
    ensures Feed(accepts, s, bytes) == s.(header := s.header + bytes)
  {
    if bytes == [] {
      assert s.header + bytes == s.header;
    } else {
      HeaderFills(accepts, s, bytes[..|bytes| - 1]);
      assert s.header + bytes == s.header + bytes[..|bytes| - 1] + [bytes[|bytes| - 1]];
    }
  }

  lemma HeaderCompletes(accepts: Consumer, s: Framing, bytes: Octets)
    requires !s.failed && s.length.None? && |s.header| < 4 && |s.header| + |bytes| == 4
    ensures Feed(accepts, s, bytes) == Announce(s, s.header + bytes)
  {
    hide Announce, Complete;
    var front := bytes[..|bytes| - 1];
    HeaderFills(accepts, s, front);
    SameAnnouncement(s, s.header + front, s.header + bytes);
    assert s.header + bytes == s.header + front + [bytes[|bytes| - 1]];
  }

  lemma SameAnnouncement(s: Framing, so: Octets, header: Octets)
    ensures Announce(s.(header := so), header) == Announce(s, header)
  {
  }

  lemma {:induction false} BodyFills(accepts: Consumer, s: Framing, bytes: Octets)
    requires !s.failed && s.length.Some? && |s.body| + |bytes| < s.length.value
    ensures Feed(accepts, s, bytes) == s.(body := s.body + bytes)
  {
    if bytes == [] {
      assert s.body + bytes == s.body;
    } else {
      BodyFills(accepts, s, bytes[..|bytes| - 1]);
      assert s.body + bytes == s.body + bytes[..|bytes| - 1] + [bytes[|bytes| - 1]];
    }
  }

  lemma BodyCompletes(accepts: Consumer, s: Framing, bytes: Octets)
    requires !s.failed && s.length.Some? && bytes != [] && |s.body| + |bytes| == s.length.value
    ensures Feed(accepts, s, bytes) == Complete(accepts, s, s.body + bytes)
  {
    var front := bytes[..|bytes| - 1];
    BodyFills(accepts, s, front);
    assert s.body + bytes == s.body + front + [bytes[|bytes| - 1]];
  }

  // ----- the plain parser -----

  /** Feeding a stream from an object boundary is parsing it. */
  lemma {:induction false} FeedIsParsing(accepts: Consumer, delivered: seq<Octets>, bytes: Octets)
    ensures Feed(accepts, START.(delivered := delivered), bytes) == Parsed(accepts, delivered, bytes)
    decreases |bytes|
  {
    hide Feed;
    var at := START.(delivered := delivered);
    if |bytes| < 4 {
      assert [] + bytes == bytes;
      HeaderFills(accepts, at, bytes);
    } else {
      var header, rest := bytes[..4], bytes[4..];
      assert bytes == header + rest;
      FeedConcat(accepts, at, header, rest);
      HeaderCompletes(accepts, at, header);
      assert [] + header == header;
      var length := FromBytes(header);
      if length == 0 || length > MAX_OBJECT {
        FailedStays(accepts, Fail(at), rest);
      } else {
        FeedObject(accepts, at.(length := Some(length)), rest);
        if length <= |rest| && accepts(delivered, rest[..length]) {
          FeedIsParsing(accepts, delivered + [rest[..length]], rest[length..]);
          assert bytes[4..4 + length] == rest[..length] && bytes[4 + length..] == rest[length..];
        } else if length <= |rest| {
          assert bytes[4..4 + length] == rest[..length];
        }
      }
    }
  }

  lemma FeedObject(accepts: Consumer, s: Framing, bytes: Octets)
    requires !s.failed && s.length.Some? && s.length.value > 0 && s.body == []
    ensures var n := s.length.value;
            Feed(accepts, s, bytes) ==
            if |bytes| < n then s.(body := bytes)
            else Feed(accepts, Complete(accepts, s, bytes[..n]), bytes[n..])
    ensures var n := s.length.value;
            n <= |bytes| && !accepts(s.delivered, bytes[..n]) ==> Feed(accepts, s, bytes) == Fail(s)
  {
    hide Feed;
    var n := s.length.value;
    assert forall b: Octets :: [] + b == b;
    if |bytes| < n {
      BodyFills(accepts, s, bytes);
    } else {
      assert bytes == bytes[..n] + bytes[n..];
      FeedConcat(accepts, s, bytes[..n], bytes[n..]);
      BodyCompletes(accepts, s, bytes[..n]);
      if !accepts(s.delivered, bytes[..n]) {
        FailedStays(accepts, Fail(s), bytes[n..]);
      }
    }
  }

  // ----- bounds -----

  ghost predicate Bounded(s: Framing) {
    && |s.header| < 4
    && (s.length.Some? ==> 0 < s.length.value <= MAX_OBJECT)
    && |s.body| <= (if s.length.Some? then s.length.value - 1 else 0)
    && (s.length.Some? ==> s.header == [])
    && forall i :: 0 <= i < |s.delivered| ==> 0 < |s.delivered[i]| <= MAX_OBJECT
  }

  /** Buffers never hold more than a header and one object, whatever arrives. */
  lemma {:induction false} FeedIsBounded(accepts: Consumer, s: Framing, bytes: Octets)
    requires Bounded(s)
    ensures Bounded(Feed(accepts, s, bytes))
  {
    if bytes != [] {
      FeedIsBounded(accepts, s, bytes[..|bytes| - 1]);
    }
  }

  // ----- a finished stream -----

  lemma {:induction false} FramesLast(bodies: seq<Octets>, body: Octets)
    ensures Frames(bodies + [body]) == Frames(bodies) + Frame(body)
  {
    if bodies == [] {
      assert bodies + [body] == [body];
      assert Frames([body]) == Frame(body) + Frames([]);
    } else {
      assert (bodies + [body])[1..] == bodies[1..] + [body];
      FramesLast(bodies[1..], body);
    }
  }

  /** What has arrived of the object in progress. */
  ghost function Pending(s: Framing): Octets {
    if s.length.Some? then ToBytes(s.length.value, 4) + s.body else s.header
  }

  lemma ByteIsAccounted(accepts: Consumer, s: Framing, b: Byte)
    requires Bounded(s) && !s.failed && !Byte1(accepts, s, b).failed
    ensures var t := Byte1(accepts, s, b);
            Frames(t.delivered) + Pending(t) == Frames(s.delivered) + Pending(s) + [b]
  {
    hide Frames, ToBytes, FromBytes;
    var t := Byte1(accepts, s, b);
    if s.length.None? && t.length.Some? {
      WritesBack(s.header + [b]);
      assert t.body == [] && ToBytes(t.length.value, 4) + [] == s.header + [b];
    } else if s.length.Some? && t.length.None? {
      FramesLast(s.delivered, s.body + [b]);
      assert Frames(t.delivered) + [] == Frames(s.delivered) + Pending(s) + [b];
    }
  }

  /** As long as nothing failed, the delivered objects and the one in progress account for every byte. */
  lemma {:induction false} BytesAreAccounted(accepts: Consumer, bytes: Octets)
    requires !Feed(accepts, START, bytes).failed
    ensures var s := Feed(accepts, START, bytes); Frames(s.delivered) + Pending(s) == bytes
  {
    hide Byte1, Frames, Pending;
    if bytes == [] {
      NothingAccounted();
    } else {
      var front, b := bytes[..|bytes| - 1], bytes[|bytes| - 1];
      var s := Feed(accepts, START, front);
      if s.failed {
        FailedByte(accepts, s, b);
      }
      BytesAreAccounted(accepts, front);
      FeedIsBounded(accepts, START, front);
      ByteIsAccounted(accepts, s, b);
    }
  }

  lemma NothingAccounted()
    ensures Frames(START.delivered) + Pending(START) == []
  {
  }

  lemma FailedByte(accepts: Consumer, s: Framing, b: Byte)
    requires s.failed
    ensures Byte1(accepts, s, b).failed
  {
  }

  /** The bytes are the frames of objects the consumer takes one after another. */
  ghost predicate WholeFrames(accepts: Consumer, bytes: Octets) {
    exists bodies: seq<Octets> :: Agreeable(accepts, bodies) && Frames(bodies) == bytes
  }

  /** A stream finishes cleanly exactly if it is whole frames, and they are those of the objects it delivered. */
  lemma FinishedIsExact(accepts: Consumer, bytes: Octets)
    ensures Finishes(Feed(accepts, START, bytes)) <==> WholeFrames(accepts, bytes)
    ensures Finishes(Feed(accepts, START, bytes)) ==> Frames(Feed(accepts, START, bytes).delivered) == bytes
  {
    hide Feed, Frames;
    var s := Feed(accepts, START, bytes);
    if Finishes(s) {
      BytesAreAccounted(accepts, bytes);
      FeedIsBounded(accepts, START, bytes);
      DeliveredWereAccepted(accepts, bytes);
      assert Frames(s.delivered) + [] == Frames(s.delivered);
      assert Agreeable(accepts, s.delivered);
    }
    if WholeFrames(accepts, bytes) {
      var bodies: seq<Octets> :| Agreeable(accepts, bodies) && Frames(bodies) == bytes;
      FramesRoundTrip(accepts, bodies);
    }
  }

  /** Objects the consumer takes one after another. */
  ghost predicate Agreeable(accepts: Consumer, bodies: seq<Octets>) {
    AllAccepted(accepts, bodies) && forall i :: 0 <= i < |bodies| ==> 0 < |bodies[i]| <= MAX_OBJECT
  }

  /** Framed objects the consumer takes are delivered as they were sent, and the stream finishes. */
  lemma {:induction false} FramesRoundTrip(accepts: Consumer, bodies: seq<Octets>)
    requires Agreeable(accepts, bodies)
    ensures Feed(accepts, START, Frames(bodies)) == START.(delivered := bodies)
  {
    if bodies != [] {
      var front, body := bodies[..|bodies| - 1], bodies[|bodies| - 1];
      assert bodies == front + [body];
      assert forall i :: 0 <= i < |front| ==> front[..i] == bodies[..i];
      FramesRoundTrip(accepts, front);
      FramesLast(front, body);
      FeedConcat(accepts, START, Frames(front), Frame(body));
      FrameDelivers(accepts, front, body);
    }
  }

  lemma FrameDelivers(accepts: Consumer, delivered: seq<Octets>, body: Octets)
    requires 0 < |body| <= MAX_OBJECT && accepts(delivered, body)
    ensures Feed(accepts, START.(delivered := delivered), Frame(body)) == START.(delivered := delivered + [body])
  {
    var at, header := START.(delivered := delivered), ToBytes(|body|, 4);
    Widths();
    ReadsBack(|body|, 4);
    FeedConcat(accepts, at, header, body);
    HeaderCompletes(accepts, at, header);
    assert [] + header == header;
    BodyCompletes(accepts, at.(length := Some(|body|)), body);
    assert [] + body == body;
  }

  // ----- one group -----

  ghost predicate FreshGroup(g: Group) {
    g.next == 0 && g.bytes == 0 && g.timestamp.None? && !g.failed
  }

  /** Every object of `encoded` was taken, and the group counts them. */
  ghost predicate Taken(decode: Decoder, g: Group, encoded: seq<Octets>) {
    forall i :: 0 <= i < |encoded| ==> Accept(decode, AcceptAll(decode, g, encoded[..i]), encoded[i]).1.Ok?
  }

  function TotalSize(encoded: seq<Octets>): nat {
    if encoded == [] then 0 else TotalSize(encoded[..|encoded| - 1]) + |encoded[|encoded| - 1]|
  }

  /** Object `i` of a group: its number is its position, it is a key exactly at 0, and time does not run back. */
  ghost predicate InSequence(decode: Decoder, g: Group, encoded: seq<Octets>, i: nat)
    requires i < |encoded|
  {
    var o := decode(encoded[i]);
    && o.Some? && o.value.number == i && o.value.keyframe == (i == 0) && o.value.data != []
    && o.value.attach == g.attach && o.value.track == g.track && o.value.layout == g.layout
    && o.value.codec == g.codec && o.value.group == g.group
    && (i > 0 ==> decode(encoded[i - 1]).Some? && decode(encoded[i - 1]).value.timestamp <= o.value.timestamp)
  }

  /** A group that has taken all of `encoded`: its counters, and the time of the last object. */
  ghost predicate Counts(decode: Decoder, g: Group, encoded: seq<Octets>, e: Group) {
    && e == g.(next := |encoded|, bytes := TotalSize(encoded), timestamp := e.timestamp)
    && (if encoded == [] then e.timestamp == None
        else var last := decode(encoded[|encoded| - 1]); last.Some? && e.timestamp == Some(last.value.timestamp))
  }

  lemma GroupTakesOne(decode: Decoder, g: Group, front: seq<Octets>, e: Group, body: Octets)
    requires FreshGroup(g) && Counts(decode, g, front, e) && Accept(decode, e, body).1.Ok?
    ensures Counts(decode, g, front + [body], Accept(decode, e, body).0)
    ensures InSequence(decode, g, front + [body], |front|)
    ensures |front| + 1 <= MAX_GROUP_OBJECTS && TotalSize(front + [body]) <= MAX_GROUP_BYTES
  {
    assert (front + [body])[..|front|] == front;
  }

  /** The objects a group passes are numbered without gap, start with the only keyframe, and stay within its budget. */
  lemma {:induction false} GroupIsGapless(decode: Decoder, g: Group, encoded: seq<Octets>)
    requires FreshGroup(g) && Taken(decode, g, encoded)
    ensures forall i :: 0 <= i < |encoded| ==> InSequence(decode, g, encoded, i)
    ensures |encoded| <= MAX_GROUP_OBJECTS && TotalSize(encoded) <= MAX_GROUP_BYTES
    ensures Counts(decode, g, encoded, AcceptAll(decode, g, encoded))
  {
    hide Accept, GroupConsumer, InSequence, Taken;
    if encoded == [] {
      NothingCounted(decode, g);
    } else {
      hide Counts, TotalSize;
      var front, body := encoded[..|encoded| - 1], encoded[|encoded| - 1];
      assert encoded == front + [body];
      TakenBefore(decode, g, front, body);
      GroupIsGapless(decode, g, front);
      GroupTakesOne(decode, g, front, AcceptAll(decode, g, front), body);
      forall i | 0 <= i < |front|
        ensures InSequence(decode, g, encoded, i)
      {
        StaysInSequence(decode, g, front, body, i);
      }
    }
  }

  lemma NothingCounted(decode: Decoder, g: Group)
    requires FreshGroup(g)
    ensures Counts(decode, g, [], AcceptAll(decode, g, [])) && TotalSize([]) == 0
  {
  }

  lemma TakenBefore(decode: Decoder, g: Group, front: seq<Octets>, body: Octets)
    requires Taken(decode, g, front + [body])
    ensures Taken(decode, g, front) && Accept(decode, AcceptAll(decode, g, front), body).1.Ok?
  {
    hide Accept, AcceptAll;
    var all := front + [body];
    assert all[..|front|] == front && all[|front|] == body;
    forall i | 0 <= i < |front|
      ensures Accept(decode, AcceptAll(decode, g, front[..i]), front[i]).1.Ok?
    {
      assert all[..i] == front[..i] && all[i] == front[i];
    }
  }

  lemma StaysInSequence(decode: Decoder, g: Group, front: seq<Octets>, body: Octets, i: nat)
    requires i < |front| && InSequence(decode, g, front, i)
    ensures InSequence(decode, g, front + [body], i)
  {
  }

  /** Exactly which object a group takes next. */
  lemma AcceptIff(decode: Decoder, g: Group, encoded: Octets)
    ensures var o := decode(encoded);
            Accept(decode, g, encoded).1.Ok? <==>
              && !g.failed && |encoded| <= 4 * 1024 * 1024 && g.bytes + |encoded| <= 16 * 1024 * 1024 && g.next < 240
              && o.Some? && o.value.attach == g.attach && o.value.track == g.track && o.value.layout == g.layout
              && o.value.codec == g.codec && o.value.group == g.group && o.value.number == g.next
              && (o.value.keyframe <==> g.next == 0) && |o.value.data| > 0
              && (g.timestamp.Some? ==> g.timestamp.value <= o.value.timestamp)
    ensures Accept(decode, g, encoded).1.Ok? ==>
              && Accept(decode, g, encoded).1.value == decode(encoded).value
              && Accept(decode, g, encoded).0 == g.(next := g.next + 1, bytes := g.bytes + |encoded|,
                                                    timestamp := Some(decode(encoded).value.timestamp))
  {
  }

  /** Why an object is turned away. */
  lemma RefusalIs(decode: Decoder, g: Group, encoded: Octets)
    requires Accept(decode, g, encoded).1.Err?
    ensures Accept(decode, g, encoded).1.error ==
            if g.failed then Discontinuity
            else if |encoded| > 4 * 1024 * 1024 || g.bytes + |encoded| > 16 * 1024 * 1024 || g.next >= 240 then Limit
            else if decode(encoded).None? then Malformed
            else Discontinuity
    ensures !g.failed ==> Accept(decode, g, encoded).0.failed
  {
  }

  /** Objects that are in sequence and within the limits are all taken: the converse of `GroupIsGapless`. */
  lemma {:induction false} SequenceIsTaken(decode: Decoder, g: Group, encoded: seq<Octets>)
    requires FreshGroup(g) && |encoded| <= 240 && TotalSize(encoded) <= 16 * 1024 * 1024
    requires forall i :: 0 <= i < |encoded| ==> InSequence(decode, g, encoded, i) && |encoded[i]| <= 4 * 1024 * 1024
    ensures Taken(decode, g, encoded) && Counts(decode, g, encoded, AcceptAll(decode, g, encoded))
  {
    hide Accept, GroupConsumer, Taken;
    if encoded == [] {
      NothingCounted(decode, g);
      NothingTaken(decode, g);
    } else {
      var front, body := encoded[..|encoded| - 1], encoded[|encoded| - 1];
      assert encoded == front + [body];
      forall i | 0 <= i < |front|
        ensures InSequence(decode, g, front, i) && |front[i]| <= 4 * 1024 * 1024
      {
        assert InSequence(decode, g, encoded, i) && front[i] == encoded[i];
      }
      SequenceIsTaken(decode, g, front);
      assert InSequence(decode, g, encoded, |front|);
      AcceptIff(decode, AcceptAll(decode, g, front), body);
      TakenOn(decode, g, front, body);
    }
  }

  lemma NothingTaken(decode: Decoder, g: Group)
    ensures Taken(decode, g, [])
  {
  }

  lemma TakenOn(decode: Decoder, g: Group, front: seq<Octets>, body: Octets)
    requires Taken(decode, g, front) && Accept(decode, AcceptAll(decode, g, front), body).1.Ok?
    ensures Taken(decode, g, front + [body])
  {
    hide Accept, AcceptAll;
    var all := front + [body];
    forall i | 0 <= i < |all|
      ensures Accept(decode, AcceptAll(decode, g, all[..i]), all[i]).1.Ok?
    {
      if i < |front| {
        assert all[..i] == front[..i] && all[i] == front[i];
      } else {
        assert all[..i] == front && all[i] == body;
      }
    }
  }

  /** An object on the wire: four bytes of length, the most significant first, and the object. */
  lemma FrameLayout(body: Octets)
    requires |body| <= MAX_OBJECT
    ensures var f := Frame(body);
            && |f| == 4 + |body| && f[4..] == body
            && Quad(f[0], f[1], f[2], f[3]) == |body|
  {
    FourBytes(|body|);
  }

  /** Once a group has turned an object away it takes nothing more. */
  lemma FailedGroupIsSilent(decode: Decoder, g: Group, encoded: Octets, next: Octets)
    requires Accept(decode, g, encoded).1.Err?
    ensures Accept(decode, Accept(decode, g, encoded).0, next).1 == Err(Discontinuity)
  {
  }

  // ----- both together -----

  ghost predicate AllAccepted(accepts: Consumer, bodies: seq<Octets>) {
    forall i :: 0 <= i < |bodies| ==> accepts(bodies[..i], bodies[i])
  }

  lemma {:induction false} DeliveredWereAccepted(accepts: Consumer, bytes: Octets)
    ensures AllAccepted(accepts, Feed(accepts, START, bytes).delivered)
  {
    if bytes != [] {
      var front, b := bytes[..|bytes| - 1], bytes[|bytes| - 1];
      DeliveredWereAccepted(accepts, front);
      ByteDelivers(accepts, Feed(accepts, START, front), b);
    }
  }

  lemma ByteDelivers(accepts: Consumer, s: Framing, b: Byte)
    requires AllAccepted(accepts, s.delivered)
    ensures AllAccepted(accepts, Byte1(accepts, s, b).delivered)
  {
    var d := Byte1(accepts, s, b).delivered;
    forall i | 0 <= i < |d|
      ensures accepts(d[..i], d[i])
    {
      assert d[..i] == s.delivered[..i];
    }
  }

  /** Whatever bytes arrive in whatever pieces, the objects a receiver gets form a gapless group. */
  lemma ReceiverSeesGaplessGroup(decode: Decoder, g: Group, chunks: seq<Octets>)
    requires FreshGroup(g)
    ensures var d := FeedChunks(GroupConsumer(decode, g), START, chunks).delivered;
            && |d| <= MAX_GROUP_OBJECTS && TotalSize(d) <= MAX_GROUP_BYTES
            && forall i :: 0 <= i < |d| ==> InSequence(decode, g, d, i)
  {
    var accepts := GroupConsumer(decode, g);
    PartitionDoesNotMatter(accepts, START, chunks);
    DeliveredWereAccepted(accepts, Joined(chunks));
    GroupIsGapless(decode, g, Feed(accepts, START, Joined(chunks)).delivered);
  }

  // ----- what goes wrong, and how it is reported -----

  /** A bad length, an object the consumer refuses, and a stream that has failed before are told apart. */
  lemma FailuresAre(accepts: Consumer, delivered: seq<Octets>, header: Octets, body: Octets)
    requires |header| == 4
    ensures var at, announced := START.(delivered := delivered), FromBytes(header);
            && (announced == 0 || announced > 4 * 1024 * 1024 ==> FeedError(at, Feed(accepts, at, header)) == Some(Limit))
            && (0 < announced <= 4 * 1024 * 1024 ==> FeedError(at, Feed(accepts, at, header)) == None)
            && (0 < |body| <= 4 * 1024 * 1024 ==>
                  FeedError(at, Feed(accepts, at, Frame(body))) == if accepts(delivered, body) then None else Some(Refused))
    ensures forall s: Framing, t: Framing :: s.failed ==> FeedError(s, t) == Some(Malformed)
  {
    hide Feed;
    var at := START.(delivered := delivered);
    HeaderCompletes(accepts, at, header);
    assert [] + header == header;
    if 0 < |body| <= MAX_OBJECT {
      FrameFeeds(accepts, delivered, body);
    }
  }

  lemma FrameFeeds(accepts: Consumer, delivered: seq<Octets>, body: Octets)
    requires 0 < |body| <= MAX_OBJECT
    ensures var at := START.(delivered := delivered);
            Feed(accepts, at, Frame(body)) == Complete(accepts, at.(length := Some(|body|)), body)
  {
    hide Feed;
    var at, header := START.(delivered := delivered), ToBytes(|body|, 4);
    Widths();
    ReadsBack(|body|, 4);
    FeedConcat(accepts, at, header, body);
    HeaderCompletes(accepts, at, header);
    assert [] + header == header;
    BodyCompletes(accepts, at.(length := Some(|body|)), body);
    assert [] + body == body;
  }

  // ----- the objects of the program -----

  class FrameReader {
    const accepts: Consumer
    var header: Octets
    var body: Octets
    var length: Option<nat>
    var failed: bool
    var delivered: seq<Octets>

    ghost function View(): Framing
      reads this
    {
      Framing(header, body, length, failed, delivered)
    }

    constructor (accepts: Consumer)
      ensures this.accepts == accepts && View() == START
    {
      this.accepts, header, body, length, failed, delivered := accepts, [], [], None, false, [];
    }

    /** `feed`: take a chunk in as few copies as its boundaries allow. */
    method FeedChunk(chunk: Octets) returns (error: Option<Error>)
      requires Bounded(View())
      modifies this
      ensures Bounded(View())
      ensures View() == Feed(accepts, old(View()), chunk)
      ensures error == FeedError(old(View()), View())
    {
      hide Feed;
      ghost var s := View();
      FeedIsBounded(accepts, s, chunk);
      if failed {
        FailedStays(accepts, s, chunk);
        return Some(Malformed);
      }
      var at: nat := 0;
      FeedNothing(accepts, s);
      while at < |chunk|
        invariant at <= |chunk|
        invariant !failed && Bounded(View()) && View() == Feed(accepts, s, chunk[..at])
        decreases |chunk| - at
      {
        if length.None? {
          var n := Min(4 - |header|, |chunk| - at);
          FeedOn(accepts, s, chunk, at, n);
          TakeHeader(chunk[at..][..n]);
          at := at + n;
          if failed {
            FeedRest(accepts, s, chunk, at);
            return Some(Limit);
          }
          if length.None? {
            continue;
          }
        }
        var n := Min(length.value - |body|, |chunk| - at);
        FeedOn(accepts, s, chunk, at, n);
        TakeBody(chunk[at..][..n]);
        at := at + n;
        if failed {
          FeedRest(accepts, s, chunk, at);
          return Some(Refused);
        }
      }
      assert chunk[..at] == chunk;
      error := None;
    }

    method TakeHeader(piece: Octets)
      requires Bounded(View()) && !failed && length.None? && piece != [] && |header| + |piece| <= 4
      modifies this
      ensures Bounded(View()) && (failed ==> length.None?)
      ensures View() == Feed(accepts, old(View()), piece)
    {
      hide Feed;
      ghost var s := View();
      FeedIsBounded(accepts, s, piece);
      if |header| + |piece| < 4 {
        HeaderFills(accepts, s, piece);
      } else {
        HeaderCompletes(accepts, s, piece);
      }
      header := header + piece;
      if |header| < 4 {
        return;
      }
      var announced := FromBytes(header);
      if announced == 0 || announced > MAX_OBJECT {
        failed, body, header := true, [], [];
        return;
      }
      length, header := Some(announced), [];
    }

    method TakeBody(piece: Octets)
      requires Bounded(View()) && !failed && length.Some? && |body| + |piece| <= length.value
      modifies this
      ensures Bounded(View()) && (failed ==> length.Some?)
      ensures View() == Feed(accepts, old(View()), piece)
    {
      hide Feed;
      ghost var s := View();
      FeedIsBounded(accepts, s, piece);
      if |body| + |piece| < length.value {
        BodyFills(accepts, s, piece);
      } else {
        BodyCompletes(accepts, s, piece);
      }
      body := body + piece;
      if |body| == length.value {
        if accepts(delivered, body) {
          delivered := delivered + [body];
          body, length := [], None;
        } else {
          failed, body, header := true, [], [];
        }
      }
    }

    /** `finish`: a stream may end only between objects. */
    method Finish() returns (ok: bool)
      ensures ok == Finishes(View())
    {
      ok := !failed && length.None? && header == [];
    }
  }

  lemma FeedNothing(accepts: Consumer, s: Framing)
    ensures Feed(accepts, s, []) == s
  {
  }

  lemma FeedOn(accepts: Consumer, s: Framing, chunk: Octets, at: nat, n: nat)
    requires at + n <= |chunk|
    ensures Feed(accepts, s, chunk[..at + n]) == Feed(accepts, Feed(accepts, s, chunk[..at]), chunk[at..][..n])
  {
    assert chunk[..at + n] == chunk[..at] + chunk[at..][..n];
    FeedConcat(accepts, s, chunk[..at], chunk[at..][..n]);
  }

  /** After a failure the rest of a chunk is ignored. */
  lemma FeedRest(accepts: Consumer, s: Framing, chunk: Octets, at: nat)
    requires at <= |chunk| && Feed(accepts, s, chunk[..at]).failed
    ensures Feed(accepts, s, chunk) == Feed(accepts, s, chunk[..at])
  {
    assert chunk == chunk[..at] + chunk[at..];
    FeedConcat(accepts, s, chunk[..at], chunk[at..]);
    FailedStays(accepts, Feed(accepts, s, chunk[..at]), chunk[at..]);
  }

  /** Whoever is at an object boundary and takes `body` next is given it, and is at a boundary again. */
  ghost predicate Carries(bytes: Octets, body: Octets) {
    forall accepts: Consumer, before: seq<Octets> :: accepts(before, body) ==>
      Feed(accepts, START.(delivered := before), bytes) == START.(delivered := before + [body])
  }

  /**
   `encode_object`, given what the object's own codec made of it: what is sent carries
   exactly that to any receiver; what cannot be encoded or is over the limit is refused.
   */
  method EncodeObject(dataSize: nat, encoded: Option<Octets>) returns (r: Result<Octets>)
    ensures r.Ok? <==> dataSize <= MAX_OBJECT && encoded.Some? && 0 < |encoded.value| <= MAX_OBJECT
    ensures r.Ok? ==> Carries(r.value, encoded.value)
    ensures r.Err? ==> r.error == if dataSize <= MAX_OBJECT && encoded.None? then Malformed else Limit
  {
    hide Feed;
    if dataSize > MAX_OBJECT {
      return Err(Limit);
    }
    if encoded.None? {
      return Err(Malformed);
    }
    var body := encoded.value;
    if body == [] || |body| > MAX_OBJECT {
      return Err(Limit);
    }
    r := Ok(ToBytes(|body|, 4) + body);
    forall accepts: Consumer, before: seq<Octets> | accepts(before, body)
      ensures Feed(accepts, START.(delivered := before), r.value) == START.(delivered := before + [body])
    {
      FrameDelivers(accepts, before, body);
    }
  }

  class GroupReceiver {
    const decode: Decoder
    const attach: Octets
    const track: nat
    const layout: nat
    const codec: nat
    const group: nat
    var next: nat
    var bytes: nat
    var timestamp: Option<nat>
    var failed: bool

    ghost function View(): Group
      reads this
    {
      Group(attach, track, layout, codec, group, next, bytes, timestamp, failed)
    }

    constructor (decode: Decoder, attach: Octets, track: nat, layout: nat, codec: nat, group: nat)
      ensures this.decode == decode && FreshGroup(View())
      ensures View() == Group(attach, track, layout, codec, group, 0, 0, None, false)
    {
      this.decode := decode;
      this.attach, this.track, this.layout, this.codec, this.group := attach, track, layout, codec, group;
      next, bytes, timestamp, failed := 0, 0, None, false;
    }

    method AcceptObject(encoded: Octets) returns (r: Result<Media>)
      modifies this
      ensures (View(), r) == Accept(decode, old(View()), encoded)
    {
      if failed {
        return Err(Discontinuity);
      }
      bytes := bytes + |encoded|;
      if |encoded| > MAX_OBJECT || bytes > MAX_GROUP_BYTES || next >= MAX_GROUP_OBJECTS {
        failed := true;
        return Err(Limit);
      }
      var decoded := decode(encoded);
      if decoded.None? {
        failed := true;
        return Err(Malformed);
      }
      var o := decoded.value;
      if o.attach != attach || o.track != track || o.layout != layout || o.codec != codec || o.group != group
         || o.number != next || (o.number == 0) != o.keyframe
         || (timestamp.Some? && o.timestamp < timestamp.value) || o.data == [] {
        failed := true;
        return Err(Discontinuity);
      }
      next := next + 1;
      timestamp := Some(o.timestamp);
      r := Ok(o);
    }
  }
}
