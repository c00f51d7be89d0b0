/** Profile 2: bundles of independently encoded horizontal stripes, as values. */
module StripeModel {
  import opened Arithmetic
  import opened Basics
  import opened BigEndian

  const MAX_STRIPES: nat := 2
  const MAX_BUNDLE: nat := 4 * 1024 * 1024
  const MAX_HEIGHT: nat := 2160
  const MAGIC: Octets := [0x52, 0x53, 0x02]

  // ----- bundles -----

  datatype Packet = Packet(index: Byte, keyframe: bool, data: Octets)

  /** An Annex B start code. */
  predicate StartsNal(data: Octets) {
    (|data| >= 4 && data[..4] == [0, 0, 0, 1]) || (|data| >= 3 && data[..3] == [0, 0, 1])
  }

  predicate Admissible(p: Packet, last: Option<Byte>, stripes: nat, first: bool) {
    && p.index < stripes
    && (first ==> p.keyframe)
    && (last.Some? ==> last.value < p.index)
    && StartsNal(p.data)
  }

  /** Indexes ascend, a group start has keys only, every payload is Annex B. */
  predicate AdmissibleAll(packets: seq<Packet>, last: Option<Byte>, stripes: nat, first: bool) {
    packets == [] ||
    (Admissible(packets[0], last, stripes, first) && AdmissibleAll(packets[1..], Some(packets[0].index), stripes, first))
  }

  function Record(p: Packet): Octets {
    [p.index, if p.keyframe then 1 else 0] + ToBytes(|p.data|, 4) + p.data
  }

  function Records(packets: seq<Packet>): Octets {
    if packets == [] then [] else Record(packets[0]) + Records(packets[1..])
  }

  function Serialize(packets: seq<Packet>): Octets
    requires |packets| < 256
  {
    MAGIC + [|packets|] + Records(packets)
  }

  /** What a bundle may hold. */
  predicate Bundle(packets: seq<Packet>, stripes: nat, first: bool) {
    && 1 <= stripes <= MAX_STRIPES
    && 1 <= |packets| <= stripes && (first ==> |packets| == stripes)
    && AdmissibleAll(packets, None, stripes, first)
    && |Serialize(packets)| <= MAX_BUNDLE
  }

  // ----- decoding -----

  /** One record at the front of `b`. */
  function ReadRecord(b: Octets, last: Option<Byte>, stripes: nat, first: bool): (r: Option<Packet>)
    ensures r.Some? ==> |Record(r.value)| <= |b|
  {
    if |b| < 6 || b[1] > 1 then None
    else
      var length := FromBytes(b[2..6]);
      if |b| - 6 < length then None
      else
        var p := Packet(b[0], b[1] == 1, b[6..6 + length]);
        if Admissible(p, last, stripes, first) then Some(p) else None
  }

  /** Exactly `n` records that fill `b`. */
  function ReadRecords(b: Octets, n: nat, last: Option<Byte>, stripes: nat, first: bool): Option<seq<Packet>>
    decreases n
  {
    if n == 0 then if b == [] then Some([]) else None
    else
      var p := ReadRecord(b, last, stripes, first);
      if p.None? then None
      else
        var rest := ReadRecords(b[|Record(p.value)|..], n - 1, Some(p.value.index), stripes, first);
        if rest.None? then None else Some([p.value] + rest.value)
  }

  function Decode(data: Octets, stripes: nat, first: bool): Option<seq<Packet>> {
    if !(1 <= stripes <= MAX_STRIPES) || |data| > MAX_BUNDLE || |data| < 4 || data[..3] != MAGIC then None
    else
      var count := data[3];
      if count == 0 || count > stripes || (first && count != stripes) then None
      else ReadRecords(data[4..], count, None, stripes, first)
  }

  function Encode(packets: seq<Packet>, stripes: nat, first: bool): Option<Octets> {
    if packets == [] || |packets| > MAX_STRIPES || |Serialize(packets)| > MAX_BUNDLE then None
    else if Decode(Serialize(packets), stripes, first).None? then None
    else Some(Serialize(packets))
  }

  // ----- layouts -----

  datatype Stripe = Stripe(y: nat, height: nat)

  /** Even, nonempty stripes that follow one another from `y` and end at `height`. */
  predicate Stacked(stripes: seq<Stripe>, y: nat, height: nat) {
    if stripes == [] then y == height
    else stripes[0].y == y && y % 2 == 0 && stripes[0].height > 0 && stripes[0].height % 2 == 0
         && Stacked(stripes[1..], y + stripes[0].height, height)
  }

  predicate Layout(height: nat, stripes: seq<Stripe>) {
    1 <= |stripes| <= MAX_STRIPES && 0 < height <= MAX_HEIGHT && Stacked(stripes, 0, height)
  }

  // ----- regions of a frame -----

  /** A tightly packed NV12 frame: all luma rows, then half as many chroma rows. */
  predicate FrameShaped(pixels: Octets, width: nat, height: nat) {
    && 0 < width <= 3840 && width % 2 == 0 && 0 < height <= MAX_HEIGHT && height % 2 == 0
    && |pixels| == RowStart(height, width) + RowStart(height / 2, width)
  }

  predicate Inside(s: Stripe, height: nat) {
    s.y % 2 == 0 && s.height > 0 && s.height % 2 == 0 && s.y + s.height <= height
  }

  /** Rows `top` up to `bottom` of a plane. */
  function Rows(plane: Octets, width: nat, top: nat, bottom: nat): Octets
    requires top <= bottom && RowStart(bottom, width) <= |plane|
  {
    RowsGrow(top, bottom, width);
    plane[RowStart(top, width)..RowStart(bottom, width)]
  }

  function Luma(pixels: Octets, width: nat, height: nat): (r: Octets)
    requires FrameShaped(pixels, width, height)
    ensures |r| == RowStart(height, width)
  {
    pixels[..RowStart(height, width)]
  }

  function Chroma(pixels: Octets, width: nat, height: nat): (r: Octets)
    requires FrameShaped(pixels, width, height)
    ensures |r| == RowStart(height / 2, width)
  {
    pixels[RowStart(height, width)..]
  }

  /** The rows of one stripe, luma first. */
  function Region(pixels: Octets, width: nat, height: nat, s: Stripe): Octets
    requires FrameShaped(pixels, width, height) && Inside(s, height)
  {
    RowsGrow(s.y + s.height, height, width);
    RowsGrow((s.y + s.height) / 2, height / 2, width);
    Rows(Luma(pixels, width, height), width, s.y, s.y + s.height) +
    Rows(Chroma(pixels, width, height), width, s.y / 2, (s.y + s.height) / 2)
  }

  /** The luma planes of the stripes' own frames, in order. */
  function JoinLuma(regions: seq<Octets>, stripes: seq<Stripe>, width: nat): Octets
    requires |regions| == |stripes|
  {
    if stripes == [] then []
    else regions[0][..Min(RowStart(stripes[0].height, width), |regions[0]|)] + JoinLuma(regions[1..], stripes[1..], width)
  }

  /** The chroma planes of the stripes' own frames, in order. */
  function JoinChroma(regions: seq<Octets>, stripes: seq<Stripe>, width: nat): Octets
    requires |regions| == |stripes|
  {
    if stripes == [] then []
    else regions[0][Min(RowStart(stripes[0].height, width), |regions[0]|)..] + JoinChroma(regions[1..], stripes[1..], width)
  }
}
