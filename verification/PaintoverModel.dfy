/** Spatial paintover: which 64 by 64 blocks of a frame have settled and may be refined, as values and runs. */
module PaintoverModel {
  import opened Arithmetic
  import opened Basics

  /** Times are in nanoseconds. */
  const DELAY: nat := 200_000_000
  const BURST: nat := 4
  const BLOCK: nat := 64
  const MAX_STRIPES: nat := 32

  // ----- one block -----

  datatype Paintover = Paintover(lastMotion: nat, remaining: nat)
  {
    predicate Pending() {
      remaining != 0
    }

    predicate Due(now: nat) {
      Pending() && now >= lastMotion && now - lastMotion >= DELAY
    }

    function Painted(): Paintover {
      this.(remaining := if remaining == 0 then 0 else remaining - 1)
    }
  }

  const QUIET := Paintover(0, 0)

  function Moved(now: nat): Paintover {
    Paintover(now, BURST)
  }

  // ----- selecting blocks for stripes -----

  datatype Stripe = Stripe(y: nat, height: nat)

  /** The rows of block `i` in a frame `columns` blocks wide. */
  function Top(i: nat, columns: nat): nat
    requires columns > 0
  {
    i / columns * BLOCK
  }

  predicate Touches(i: nat, columns: nat, height: nat, stripe: Stripe)
    requires columns > 0
  {
    var top := Top(i, columns);
    top < SaturatingAdd(stripe.y, stripe.height) && stripe.y < Min(top + BLOCK, height)
  }

  /** Only as many stripes count as the mask has bits. */
  predicate Covers(i: nat, columns: nat, height: nat, stripes: seq<Stripe>, index: nat)
    requires columns > 0
  {
    index < |stripes| && index < MAX_STRIPES && Touches(i, columns, height, stripes[index])
  }

  datatype Tracker = Tracker(columns: nat, height: nat, blocks: seq<Paintover>, selected: seq<nat>)

  predicate Selectable(t: Tracker, now: nat, stripes: seq<Stripe>, i: nat)
    requires i < |t.blocks| && t.columns > 0
  {
    t.blocks[i].Due(now) && exists index :: 0 <= index < |stripes| && Covers(i, t.columns, t.height, stripes, index)
  }

  /** The selectable blocks among the first `n`, ascending. */
  function Chosen(t: Tracker, now: nat, stripes: seq<Stripe>, n: nat): seq<nat>
    requires n <= |t.blocks| && t.columns > 0
  {
    if n == 0 then []
    else Chosen(t, now, stripes, n - 1) + if Selectable(t, now, stripes, n - 1) then [n - 1] else []
  }

  /** A frame was compared: changed blocks are re-armed, and any selection is void. */
  function Observed(t: Tracker, changed: set<nat>, now: nat): Tracker {
    t.(selected := [],
       blocks := seq(|t.blocks|, i requires 0 <= i < |t.blocks| => if i in changed then Moved(now) else t.blocks[i]))
  }

  function Selected(t: Tracker, now: nat, stripes: seq<Stripe>): Tracker {
    t.(selected := if t.columns == 0 then [] else Chosen(t, now, stripes, |t.blocks|))
  }

  function PaintedAll(t: Tracker): Tracker {
    t.(selected := [],
       blocks := seq(|t.blocks|, i requires 0 <= i < |t.blocks| =>
                   if i in t.selected then t.blocks[i].Painted() else t.blocks[i]))
  }

  /** The first frame of another size: nothing of the old blocks is kept, and every new one has just moved. */
  function Resized(columns: nat, height: nat, now: nat): Tracker {
    Tracker(columns, height, seq(RowStart(Blocks(height), columns), _ => Moved(now)), [])
  }

  // ----- runs -----

  datatype Op =
    | Observe(changed: set<nat>, now: nat)
    | Resize(columns: nat, height: nat, now: nat)
    | Select(now: nat, stripes: seq<Stripe>)
    /** The selected blocks reached the output. */
    | Deliver

  function Apply(t: Tracker, op: Op): Tracker {
    match op
    case Observe(changed, now) => Observed(t, changed, now)
    case Resize(columns, height, now) => Resized(columns, height, now)
    case Select(now, stripes) => Selected(t, now, stripes)
    case Deliver => PaintedAll(t)
  }

  function After(t: Tracker, ops: seq<Op>): Tracker {
    if ops == [] then t else Apply(After(t, ops[..|ops| - 1]), ops[|ops| - 1])
  }

  /** How often block `i` was painted since it last moved. */
  function Paints(t: Tracker, ops: seq<Op>, i: nat): nat {
    if ops == [] then 0
    else
      var before := ops[..|ops| - 1];
      match ops[|ops| - 1]
      case Observe(changed, _) => if i in changed then 0 else Paints(t, before, i)
      case Resize(_, _, _) => 0
      case Select(_, _) => Paints(t, before, i)
      case Deliver => Paints(t, before, i) + if i in After(t, before).selected then 1 else 0
  }

  /** The time of the latest selection. */
  function SelectedAt(ops: seq<Op>): nat {
    if ops == [] then 0
    else if ops[|ops| - 1].Select? then ops[|ops| - 1].now
    else SelectedAt(ops[..|ops| - 1])
  }

  lemma {:induction false} ChosenAreSelectable(t: Tracker, now: nat, stripes: seq<Stripe>, n: nat)
    requires n <= |t.blocks| && t.columns > 0
    ensures forall i :: i in Chosen(t, now, stripes, n) <==> 0 <= i < n && Selectable(t, now, stripes, i)
  {
    hide Selectable;
    if n != 0 {
      ChosenAreSelectable(t, now, stripes, n - 1);
    }
  }

  /** While a selection stands, each of its blocks has burst left and had settled when it was made. */
  ghost predicate SelectionSettled(t: Tracker, at: nat) {
    forall i :: i in t.selected ==> i < |t.blocks| && t.blocks[i].Due(at)
  }

  lemma {:induction false} SelectionStands(t: Tracker, ops: seq<Op>)
    requires t.selected == []
    ensures SelectionSettled(After(t, ops), SelectedAt(ops))
  {
    if ops != [] {
      var before := ops[..|ops| - 1];
      SelectionStands(t, before);
      var s := After(t, before);
      match ops[|ops| - 1]
      case Select(now, stripes) => if s.columns > 0 { ChosenAreSelectable(s, now, stripes, |s.blocks|); }
      case _ =>
    }
  }

  // ----- frames -----

  /** Blocks needed to cover `n` pixels. */
  function Blocks(n: nat): nat {
    (n + BLOCK - 1) / BLOCK
  }

  datatype Picture = Picture(luma: Octets, lumaStride: nat, chroma: Octets, chromaStride: nat, width: nat, height: nat)

  predicate Acceptable(p: Picture) {
    && 0 < p.width <= 8192 && 0 < p.height <= 8192
    && p.width % 2 == 0 && p.height % 2 == 0
    && p.width <= p.lumaStride && p.width <= p.chromaStride
    && RowStart(p.height, p.lumaStride) <= |p.luma| && RowStart(p.height / 2, p.chromaStride) <= |p.chroma|
  }

  /** Rows of the tightly packed frame: the luma rows, then half as many chroma rows, all `width` wide. */
  function Rows(height: nat): nat {
    height + height / 2
  }

  /** The byte at row `r`, column `c` of the tightly packed visible frame. */
  function Pixel(p: Picture, r: nat, c: nat): Byte
    requires Acceptable(p) && r < Rows(p.height) && c < p.width
  {
    if r < p.height then
      RowFits(r, p.height, p.lumaStride, c + 1);
      p.luma[RowStart(r, p.lumaStride) + c]
    else
      RowFits(r - p.height, p.height / 2, p.chromaStride, c + 1);
      p.chroma[RowStart(r - p.height, p.chromaStride) + c]
  }

  /** The byte a packed buffer keeps for row `r`, column `c`. */
  function Cell(buffer: Octets, width: nat, rows: nat, r: nat, c: nat): Byte
    requires |buffer| == RowStart(rows, width) && r < rows && c < width
  {
    RowFits(r, rows, width, c + 1);
    buffer[RowStart(r, width) + c]
  }

  /** The luma row a packed row belongs to; a chroma row covers two. */
  function LumaRow(height: nat, r: nat): nat {
    if r < height then r else 2 * (r - height)
  }

  /** The block a packed position belongs to. */
  function BlockAt(width: nat, height: nat, r: nat, c: nat): nat {
    RowStart(LumaRow(height, r) / BLOCK, Blocks(width)) + c / BLOCK
  }
}
