/** Length-prefixed media objects on one stream, one closed group of pictures per stream, as values. */
module TransportModel {
  import opened Basics
  import opened BigEndian

  const MAX_OBJECT: nat := 4 * 1024 * 1024
  const MAX_GROUP_BYTES: nat := 16 * 1024 * 1024
  const MAX_GROUP_OBJECTS: nat := 240

  /** `Refused` stands for whatever error the consumer of an object returned. */
  datatype Error = Limit | Malformed | Truncated | Discontinuity | Refused

  datatype Result<+T> = Ok(value: T) | Err(error: Error)

  // ----- framing -----

  /** Whoever consumes the objects: any rule about the next one, given those before it. */
  type Consumer = (seq<Octets>, Octets) -> bool

  datatype Framing = Framing(header: Octets, body: Octets, length: Option<nat>, failed: bool, delivered: seq<Octets>)

  const START := Framing([], [], None, false, [])

  function Fail(s: Framing): Framing {
    s.(failed := true, header := [], body := [])
  }

  /** A complete header: the length of the object that follows. */
  function Announce(s: Framing, header: Octets): Framing {
    var length := FromBytes(header);
    if length == 0 || length > MAX_OBJECT then Fail(s) else s.(header := [], length := Some(length))
  }

  /** A complete object goes to the consumer. */
  function Complete(accepts: Consumer, s: Framing, body: Octets): Framing {
    if accepts(s.delivered, body) then s.(body := [], length := None, delivered := s.delivered + [body]) else Fail(s)
  }

  function Byte1(accepts: Consumer, s: Framing, b: Byte): Framing {
    if s.failed then s
    else if s.length.None? then
      var header := s.header + [b];
      if |header| < 4 then s.(header := header) else Announce(s, header)
    else
      var body := s.body + [b];
      if |body| != s.length.value then s.(body := body) else Complete(accepts, s, body)
  }

  /** Bytes one at a time: what feeding them in any pieces must amount to. */
  function Feed(accepts: Consumer, s: Framing, bytes: Octets): Framing {
    if bytes == [] then s
    else Byte1(accepts, Feed(accepts, s, bytes[..|bytes| - 1]), bytes[|bytes| - 1])
  }

  /** What feeding from `s` to `t` reports. */
  function FeedError(s: Framing, t: Framing): Option<Error> {
    if s.failed then Some(Malformed)
    else if !t.failed then None
    else if t.length.None? then Some(Limit)
    else Some(Refused)
  }

  predicate Finishes(s: Framing) {
    !s.failed && s.length.None? && s.header == []
  }

  /** One object as it is sent. */
  function Frame(body: Octets): Octets {
    ToBytes(|body|, 4) + body
  }

  function Frames(bodies: seq<Octets>): Octets {
    if bodies == [] then [] else Frame(bodies[0]) + Frames(bodies[1..])
  }

  /** The plain parser of a whole stream, from an object boundary. */
  function Parsed(accepts: Consumer, delivered: seq<Octets>, bytes: Octets): Framing
    decreases |bytes|
  {
    var at := START.(delivered := delivered);
    if |bytes| < 4 then at.(header := bytes)
    else
      var length := FromBytes(bytes[..4]);
      if length == 0 || length > MAX_OBJECT then Fail(at)
      else if |bytes| - 4 < length then at.(length := Some(length), body := bytes[4..])
      else
        var body := bytes[4..4 + length];
        if accepts(delivered, body) then Parsed(accepts, delivered + [body], bytes[4 + length..])
        else Fail(at.(length := Some(length)))
  }

  // ----- one group -----

  datatype Media = Media(
    attach: Octets, track: nat, layout: nat, codec: nat, group: nat,
    number: nat, timestamp: nat, keyframe: bool, data: Octets)

  /** The generated object codec, of which only the decoding direction matters here. */
  type Decoder = Octets -> Option<Media>

  datatype Group = Group(
    attach: Octets, track: nat, layout: nat, codec: nat, group: nat,
    next: nat, bytes: nat, timestamp: Option<nat>, failed: bool)

  predicate Continues(g: Group, o: Media) {
    && o.attach == g.attach && o.track == g.track && o.layout == g.layout && o.codec == g.codec && o.group == g.group
    && o.number == g.next
    && (o.number == 0) == o.keyframe
    && (g.timestamp.Some? ==> g.timestamp.value <= o.timestamp)
    && o.data != []
  }

  /** Why an object is turned away, if it is. `bytes` already counts it. */
  function Objection(decode: Decoder, g: Group, bytes: nat, encoded: Octets): Option<Error> {
    if |encoded| > MAX_OBJECT || bytes > MAX_GROUP_BYTES || g.next >= MAX_GROUP_OBJECTS then Some(Limit)
    else
      var o := decode(encoded);
      if o.None? then Some(Malformed)
      else if !Continues(g, o.value) then Some(Discontinuity)
      else None
  }

  /** A group after one more object; a failed group stays failed. */
  function Accept(decode: Decoder, g: Group, encoded: Octets): (Group, Result<Media>) {
    if g.failed then (g, Err(Discontinuity))
    else
      var counted := g.(bytes := g.bytes + |encoded|);
      var no := Objection(decode, g, counted.bytes, encoded);
      if no.Some? then (counted.(failed := true), Err(no.value))
      else
        var o := decode(encoded).value;
        (counted.(next := g.next + 1, timestamp := Some(o.timestamp)), Ok(o))
  }

  function AcceptAll(decode: Decoder, g: Group, encoded: seq<Octets>): Group {
    if encoded == [] then g
    else Accept(decode, AcceptAll(decode, g, encoded[..|encoded| - 1]), encoded[|encoded| - 1]).0
  }

  /** The consumer a receiver feeds its frames to: the group decides. */
  function GroupConsumer(decode: Decoder, g: Group): Consumer {
    (before: seq<Octets>, next: Octets) => Accept(decode, AcceptAll(decode, g, before), next).1.Ok?
  }
}
