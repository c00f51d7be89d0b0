/**
 Messages on a stream: a kind and a field map, one after the other, as a CBOR
 sequence (RFC 8742), and the reader that reassembles them from any chunks.
 */
module SocketWire {
  import opened Basics
  import opened CborModel
  import opened CborTheorems
  import CborProofs
  import Cbor

  const MAX_SEQUENCE: nat := 64 * 1024 * 1024

  /** A message as its flattened parts; the generated field codec is not part of this model. */
  datatype Message = Message(kind: nat, fields: seq<Entry>)

  datatype Problem = CborProblem(error: Error) | CodecProblem | EmptySequence | IncompletePair | SequenceTooLarge

  datatype Prefix = NeedMore | Got(message: Message, used: nat) | Bad(problem: Problem)

  /** What can be sent: a value the codec returns unchanged. */
  ghost predicate Sendable(m: Message) {
    var fields := Map(m.fields);
    m.kind <= U64_MAX && Valid(fields) && Ordered(fields) && UnsignedForm(fields) && Depth(fields) <= MAX_DEPTH
  }

  function EncodeMessage(m: Message): (r: Octets)
    ensures r != []
  {
    Encode(U64(m.kind)) + Encode(Map(m.fields))
  }

  function EncodeSequence(messages: seq<Message>): Octets {
    if messages == [] then [] else EncodeMessage(messages[0]) + EncodeSequence(messages[1..])
  }

  /** `from_flattened_parts`: an unsigned kind and a map. */
  function FromParts(kind: Value, fields: Value): Option<Message> {
    if kind.U64? && fields.Map? then Some(Message(kind.number, fields.entries)) else None
  }

  function DecodePrefix(b: Octets): (r: Prefix)
    ensures r.Got? ==> 0 < r.used <= |b|
  {
    if |b| > MAX_SEQUENCE then Bad(SequenceTooLarge)
    else
      var kind := Decode(b, 0);
      if kind == Err(UnexpectedEnd) then NeedMore
      else if kind.Err? then Bad(CborProblem(kind.error))
      else
        var fields := Decode(b[kind.used..], 0);
        if fields == Err(UnexpectedEnd) then NeedMore
        else if fields.Err? then Bad(CborProblem(fields.error))
        else
          var m := FromParts(kind.value, fields.value);
          if m.None? then Bad(CodecProblem) else Got(m.value, kind.used + fields.used)
  }

  // ----- properties of one message -----

  lemma SendableRoundTrips(m: Message, rest: Octets)
    requires Sendable(m)
    ensures Decode(Encode(U64(m.kind)) + (Encode(Map(m.fields)) + rest), 0) == Ok(U64(m.kind), |Encode(U64(m.kind))|)
    ensures Decode(Encode(Map(m.fields)) + rest, 0) == Ok(Map(m.fields), |Encode(Map(m.fields))|)
  {
    hide Decode, Encode, Depth;
    assert Depth(U64(m.kind)) <= MAX_DEPTH by { LeafDepth(U64(m.kind)); }
    RoundTripIff(U64(m.kind), Encode(Map(m.fields)) + rest);
    RoundTripIff(Map(m.fields), rest);
  }

  lemma LeafDepth(v: Value)
    requires v.U64?
    ensures Depth(v) == 0
  {
  }

  /** A whole message, whatever follows, is returned and exactly consumed. */
  lemma PrefixReturnsMessage(m: Message, rest: Octets)
    requires Sendable(m) && |EncodeMessage(m) + rest| <= MAX_SEQUENCE
    ensures DecodePrefix(EncodeMessage(m) + rest) == Got(m, |EncodeMessage(m)|)
  {
    hide Decode, Encode, Sendable;
    SendableRoundTrips(m, rest);
    var kind, fields := Encode(U64(m.kind)), Encode(Map(m.fields));
    assert EncodeMessage(m) + rest == kind + (fields + rest);
    assert (kind + (fields + rest))[|kind|..] == fields + rest;
  }

  /** An answer other than "need more" does not change when more bytes arrive. */
  lemma PrefixStable(b: Octets, more: Octets)
    requires DecodePrefix(b) != NeedMore && |b + more| <= MAX_SEQUENCE
    ensures DecodePrefix(b + more) == DecodePrefix(b)
  {
    hide Decode;
    DecodeStable(b, more, 0);
    var kind := Decode(b, 0);
    if kind.Ok? {
      UsedFits(b);
      assert (b + more)[kind.used..] == b[kind.used..] + more;
      DecodeStable(b[kind.used..], more, 0);
    }
  }

  lemma UsedFits(b: Octets)
    ensures Decode(b, 0).Ok? ==> Decode(b, 0).used <= |b|
  {
    hide Normal;
  }

  /** A strict prefix of a message needs more bytes. */
  lemma StrictPrefixOfMessage(m: Message, cut: nat)
    requires Sendable(m) && |EncodeMessage(m)| <= MAX_SEQUENCE && cut < |EncodeMessage(m)|
    ensures DecodePrefix(EncodeMessage(m)[..cut]) == NeedMore
  {
    hide Sendable, DecodePrefix, EncodeMessage;
    var whole := EncodeMessage(m);
    var p, q := whole[..cut], whole[cut..];
    assert whole == p + q == whole + [];
    PrefixReturnsMessage(m, []);
    if DecodePrefix(p) != NeedMore {
      PrefixStable(p, q);
    }
  }

  // ----- whole sequences -----

  /** `Value::decode_sequence`. */
  function DecodeValues(b: Octets): Cbor.Result<seq<Value>>
    decreases |b|
  {
    if b == [] then Cbor.Success([])
    else
      var first := Decode(b, 0);
      if first.Err? then Cbor.Failure(first.error)
      else
        var rest := DecodeValues(b[first.used..]);
        if rest.Failure? then rest else Cbor.Success([first.value] + rest.value)
  }

  datatype Sequence = Messages(messages: seq<Message>) | Broken(problem: Problem)

  /** Pair kinds with field maps. */
  function Pairs(values: seq<Value>): Sequence
    requires |values| % 2 == 0
  {
    if values == [] then Messages([])
    else
      var m := FromParts(values[0], values[1]);
      if m.None? then Broken(CodecProblem)
      else
        var rest := Pairs(values[2..]);
        if rest.Broken? then rest else Messages([m.value] + rest.messages)
  }

  function DecodeSequence(b: Octets): Sequence {
    if |b| > MAX_SEQUENCE then Broken(SequenceTooLarge)
    else
      var values := DecodeValues(b);
      if values.Failure? then Broken(CborProblem(values.error))
      else if values.value == [] then Broken(EmptySequence)
      else if |values.value| % 2 != 0 then Broken(IncompletePair)
      else Pairs(values.value)
  }

  ghost predicate AllSendable(messages: seq<Message>) {
    forall i :: 0 <= i < |messages| ==> Sendable(messages[i])
  }

  function Flattened(messages: seq<Message>): (r: seq<Value>)
    ensures |r| == 2 * |messages|
  {
    if messages == [] then [] else [U64(messages[0].kind), Map(messages[0].fields)] + Flattened(messages[1..])
  }

  lemma {:induction false} ValuesOfSequence(messages: seq<Message>)
    requires AllSendable(messages)
    ensures DecodeValues(EncodeSequence(messages)) == Cbor.Success(Flattened(messages))
  {
    hide Decode, Encode, Sendable;
    if messages != [] {
      var m, rest := messages[0], EncodeSequence(messages[1..]);
      var kind, fields := Encode(U64(m.kind)), Encode(Map(m.fields));
      SendableRoundTrips(m, rest);
      ValuesOfSequence(messages[1..]);
      assert EncodeSequence(messages) == kind + (fields + rest);
      assert (kind + (fields + rest))[|kind|..] == fields + rest;
      assert (fields + rest)[|fields|..] == rest;
      assert DecodeValues(fields + rest) == Cbor.Success([Map(m.fields)] + Flattened(messages[1..]));
      assert [U64(m.kind)] + ([Map(m.fields)] + Flattened(messages[1..])) == Flattened(messages);
    }
  }

  lemma {:induction false} PairsOfFlattened(messages: seq<Message>)
    ensures Pairs(Flattened(messages)) == Messages(messages)
  {
    if messages != [] {
      PairsOfFlattened(messages[1..]);
      assert Flattened(messages)[2..] == Flattened(messages[1..]);
      assert messages == [messages[0]] + messages[1..];
    }
  }

  /** A sequence of messages decodes to exactly those messages; an oversized or empty one is refused. */
  lemma SequenceRoundTrips(messages: seq<Message>)
    requires AllSendable(messages)
    ensures DecodeSequence(EncodeSequence(messages)) ==
            if |EncodeSequence(messages)| > 64 * 1024 * 1024 then Broken(SequenceTooLarge)
            else if messages == [] then Broken(EmptySequence)
            else Messages(messages)
  {
    hide DecodeValues, EncodeSequence, Sendable, Pairs, Flattened;
    ValuesOfSequence(messages);
    PairsOfFlattened(messages);
    assert Flattened(messages) == [] <==> messages == [];
  }

  /** `decode_sequence` of the program: a loop over values, then a loop over pairs. */
  method ReadValues(b: Octets) returns (r: Cbor.Result<seq<Value>>)
    ensures r == DecodeValues(b)
  {
    hide Decode;
    var cursor := new Cbor.Cursor(b);
    var values := [];
    assert b[0..] == b;
    assert DecodeValues(b).Success? ==> [] + DecodeValues(b).value == DecodeValues(b).value;
    while cursor.pos != |b|
      invariant cursor.data == b && cursor.InBounds()
      invariant DecodeValues(b) == (var rest := DecodeValues(b[cursor.pos..]);
                                    if rest.Failure? then rest else Cbor.Success(values + rest.value))
      decreases |b| - cursor.pos
    {
      ghost var left := b[cursor.pos..];
      var v := Cbor.DecodeValueAt(cursor, 0);
      if v.Failure? {
        return Cbor.Failure(v.error);
      }
      UsedFits(left);
      UsedIsPositive(left);
      assert b[cursor.pos..] == left[Decode(left, 0).used..];
      assert forall tail: seq<Value> :: values + ([v.value] + tail) == values + [v.value] + tail;
      values := values + [v.value];
    }
    assert b[|b|..] == [] && values + [] == values;
    r := Cbor.Success(values);
  }

  lemma UsedIsPositive(b: Octets)
    ensures Decode(b, 0).Ok? ==> Decode(b, 0).used > 0
  {
    hide Normal;
  }

  // ----- reassembly -----

  /** A byte stream that hands out what it has in pieces of its own choosing. */
  class Stream {
    ghost var data: Octets
    var chunks: seq<Octets>

    ghost predicate Feeds()
      reads this
    {
      data == Joined(chunks)
    }

    constructor (chunks: seq<Octets>)
      ensures Feeds() && this.chunks == chunks
    {
      this.chunks, data := chunks, Joined(chunks);
    }

    /** One `read` into a buffer of `capacity` bytes; empty only at the end of the stream. */
    method ReadSome(capacity: nat) returns (piece: Octets)
      requires Feeds() && capacity > 0
      modifies this
      ensures Feeds()
      ensures piece + data == old(data) && |piece| <= capacity
      ensures piece == [] <==> old(data) == []
    {
      while chunks != [] && chunks[0] == []
        invariant Feeds() && data == old(data)
        decreases |chunks|
      {
        chunks := chunks[1..];
      }
      if chunks == [] {
        return [];
      }
      var n := Min(capacity, |chunks[0]|);
      piece := chunks[0][..n];
      chunks := [chunks[0][n..]] + chunks[1..];
      data := data[n..];
    }
  }

  datatype ReadResult = Received(message: Message) | Invalid | OverLimit | EndOfStream

  /** What reading from a stream yields, as a function of its bytes alone. */
  function Expected(whole: Octets, limit: nat): ReadResult {
    match DecodePrefix(whole[..Min(|whole|, limit)])
    case Got(m, _) => Received(m)
    case Bad(_) => Invalid
    case NeedMore => if |whole| >= limit then OverLimit else EndOfStream
  }

  class Reader {
    var bytes: Octets

    constructor ()
      ensures bytes == []
    {
      bytes := [];
    }

    /** However the stream is cut into pieces, the answer depends on its bytes only, and nothing after the message is lost. */
    method Read(input: Stream, limit: nat) returns (r: ReadResult)
      requires |bytes| <= limit <= MAX_SEQUENCE && input.Feeds()
      modifies this, input
      ensures |bytes| <= limit && input.Feeds()
      ensures r == Expected(old(bytes + input.data), limit)
      ensures r.Received? ==>
                var whole := old(bytes + input.data);
                bytes + input.data == whole[DecodePrefix(whole[..Min(|whole|, limit)]).used..]
    {
      hide DecodePrefix;
      ghost var whole := bytes + input.data;
      while true
        invariant |bytes| <= limit && input.Feeds() && bytes + input.data == whole
        decreases |input.data|
      {
        var p := DecodePrefix(bytes);
        ghost var window := whole[..Min(|whole|, limit)];
        assert window == bytes + window[|bytes|..];
        if p != NeedMore {
          PrefixStable(bytes, window[|bytes|..]);
        }
        if p.Got? {
          assert bytes[p.used..] + input.data == whole[p.used..];
          bytes := bytes[p.used..];
          return Received(p.message);
        }
        if p.Bad? {
          return Invalid;
        }
        if |bytes| >= limit {
          assert window == bytes;
          return OverLimit;
        }
        var piece := input.ReadSome(Min(8192, limit - |bytes|));
        if piece == [] {
          assert window == bytes;
          return EndOfStream;
        }
        bytes := bytes + piece;
      }
    }
  }

  /** If the stream continues with a message within the limit, that message is what reading yields. */
  lemma MessageIsExpected(m: Message, rest: Octets, limit: nat)
    requires Sendable(m) && |EncodeMessage(m)| <= limit <= MAX_SEQUENCE
    ensures var whole := EncodeMessage(m) + rest;
            && Expected(whole, limit) == Received(m)
            && DecodePrefix(whole[..Min(|whole|, limit)]) == Got(m, |EncodeMessage(m)|)
  {
    hide DecodePrefix, EncodeMessage, Sendable;
    var whole, e := EncodeMessage(m) + rest, EncodeMessage(m);
    var window := whole[..Min(|whole|, limit)];
    assert window == e + window[|e|..];
    PrefixReturnsMessage(m, window[|e|..]);
  }

  /** Any chunking of any concatenation of messages is read back as exactly those messages, in order. */
  method ReadAll(ghost messages: seq<Message>, count: nat, chunks: seq<Octets>, limit: nat) returns (received: seq<Message>)
    requires count == |messages|
    requires AllSendable(messages) && limit <= MAX_SEQUENCE
    requires forall i :: 0 <= i < |messages| ==> |EncodeMessage(messages[i])| <= limit
    requires Joined(chunks) == EncodeSequence(messages)
    ensures received == messages
  {
    hide EncodeMessage, Sendable, Expected, DecodePrefix;
    var reader := new Reader();
    var input := new Stream(chunks);
    received := [];
    assert messages[0..] == messages;
    assert reader.bytes + input.data == input.data;
    for i := 0 to count
      invariant received == messages[..i]
      invariant |reader.bytes| <= limit && input.Feeds()
      invariant reader.bytes + input.data == EncodeSequence(messages[i..])
    {
      ghost var m, rest := messages[i], EncodeSequence(messages[i + 1..]);
      assert messages[i..][1..] == messages[i + 1..];
      MessageIsExpected(m, rest, limit);
      var r := reader.Read(input, limit);
      assert (EncodeMessage(m) + rest)[|EncodeMessage(m)|..] == rest;
      received := received + [r.message];
    }
  }
}
