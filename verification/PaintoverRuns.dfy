/** When blocks are refined, over whole runs of frames, selections and deliveries: in times, rows and counts. */
module PaintoverRuns {
  import opened Arithmetic
  import opened Basics
  import opened PaintoverModel
  import Paintover

  /** Before the first frame. */
  const NOTHING := Tracker(0, 0, [], [])

  /** When block `i` last moved: the latest frame that changed it or had another size. */
  function LastMoved(ops: seq<Op>, i: nat): Option<nat> {
    if ops == [] then None
    else
      match ops[|ops| - 1]
      case Observe(changed, now) => if i in changed then Some(now) else LastMoved(ops[..|ops| - 1], i)
      case Resize(_, _, now) => Some(now)
      case _ => LastMoved(ops[..|ops| - 1], i)
  }

  // ----- what is known of a block -----

  lemma SameBlocks(t: Tracker, op: Op)
    requires !op.Resize?
    ensures |Apply(t, op).blocks| == |t.blocks| && Apply(t, op).columns == t.columns && Apply(t, op).height == t.height
  {
  }

  /** Every block remembers when it last moved and has four refinements less those it got since. */
  lemma {:induction false} BlockKnows(ops: seq<Op>, i: nat)
    requires i < |After(NOTHING, ops).blocks|
    ensures var b := After(NOTHING, ops).blocks[i];
            LastMoved(ops, i) == Some(b.lastMotion) && Paints(NOTHING, ops, i) + b.remaining == 4
  {
    if ops != [] {
      var before, op := ops[..|ops| - 1], ops[|ops| - 1];
      if !op.Resize? {
        SameBlocks(After(NOTHING, before), op);
        BlockKnows(before, i);
        SelectionStands(NOTHING, before);
      }
    }
  }

  /** A block that has been still for a fifth of a second and has refinements left. */
  ghost predicate Ripe(ops: seq<Op>, i: nat, now: nat) {
    LastMoved(ops, i).Some? && LastMoved(ops, i).value + 200_000_000 <= now && Paints(NOTHING, ops, i) < 4
  }

  lemma RipeIff(ops: seq<Op>, i: nat, now: nat)
    requires i < |After(NOTHING, ops).blocks|
    ensures After(NOTHING, ops).blocks[i].Due(now) <==> Ripe(ops, i, now)
  {
    BlockKnows(ops, i);
  }

  /**
   In every run from the first frame on, frames of new sizes included: a block that is
   selected had been still for two hundred milliseconds when it was, and had fewer than
   four refinements since it moved; so no motion is ever refined more than four times.
   */
  lemma PaintedOnlyWhenSettled(ops: seq<Op>, i: nat)
    ensures i < |After(NOTHING, ops).blocks| ==> Paints(NOTHING, ops, i) <= 4
    ensures i in After(NOTHING, ops).selected ==> i < |After(NOTHING, ops).blocks| && Ripe(ops, i, SelectedAt(ops))
  {
    SelectionStands(NOTHING, ops);
    if i < |After(NOTHING, ops).blocks| {
      BlockKnows(ops, i);
      RipeIff(ops, i, SelectedAt(ops));
    }
  }

  /** A frame is taken if it is even, at most 8192 on a side, and its planes hold every visible row. */
  lemma AcceptableIff(p: Picture)
    ensures Acceptable(p) <==>
            && 2 <= p.width <= 8192 && 2 <= p.height <= 8192 && p.width % 2 == 0 && p.height % 2 == 0
            && p.lumaStride >= p.width && p.chromaStride >= p.width
            && |p.luma| >= p.height * p.lumaStride && |p.chroma| >= p.height / 2 * p.chromaStride
  {
  }

  // ----- what is selected -----

  /** A row of the frame that belongs both to block row `r` and to the stripe. */
  ghost predicate Shared(row: nat, r: nat, height: nat, stripe: Stripe) {
    row < height && row / 64 == r && stripe.y <= row < stripe.y + stripe.height
  }

  /** The block has a row of the stripe; an empty stripe counts where it falls strictly inside the block. */
  ghost predicate Meets(i: nat, columns: nat, height: nat, stripe: Stripe)
    requires columns > 0
  {
    var r := i / columns;
    if stripe.height > 0 then exists row: nat :: Shared(row, r, height, stripe)
    else 64 * r < stripe.y < height && stripe.y / 64 == r
  }

  lemma BlockRow(i: nat, columns: nat, rows: nat)
    requires columns > 0 && i < RowStart(rows, columns)
    ensures i / columns < rows
  {
    var r := i / columns;
    assert RowStart(r, columns) + i % columns == i;
    if rows <= r {
      RowsGrow(rows, r, columns);
    }
  }

  lemma BlockInFrame(r: nat, height: nat)
    requires r < Blocks(height)
    ensures 64 * r < height
  {
  }

  lemma MeetsIff(i: nat, columns: nat, height: nat, stripe: Stripe)
    requires columns > 0 && height <= U64_MAX && i < RowStart(Blocks(height), columns)
    ensures Touches(i, columns, height, stripe) <==> Meets(i, columns, height, stripe)
  {
    hide RowStart, Blocks;
    var r := i / columns;
    BlockRow(i, columns, Blocks(height));
    BlockInFrame(r, height);
    RowRange(r, height, stripe);
    assert Top(i, columns) == 64 * r;
  }

  /** Overlapping ranges have a row in common. */
  lemma RowRange(r: nat, height: nat, stripe: Stripe)
    requires 64 * r < height <= U64_MAX
    ensures var top, bottom := 64 * r, Min(64 * r + 64, height);
            var touches := top < SaturatingAdd(stripe.y, stripe.height) && stripe.y < bottom;
            touches <==> if stripe.height > 0 then exists row: nat :: Shared(row, r, height, stripe)
                         else 64 * r < stripe.y < height && stripe.y / 64 == r
  {
    var top, bottom := 64 * r, Min(64 * r + 64, height);
    if stripe.height > 0 {
      if top < SaturatingAdd(stripe.y, stripe.height) && stripe.y < bottom {
        var row: nat := Max(top, stripe.y);
        assert Shared(row, r, height, stripe);
      } else {
        forall row: nat
          ensures !Shared(row, r, height, stripe)
        {
        }
      }
    }
  }

  /** The tracker always has one block for every 64 by 64 pixels of its frame. */
  lemma {:induction false} Shape(ops: seq<Op>)
    ensures var t := After(NOTHING, ops); |t.blocks| == RowStart(Blocks(t.height), t.columns)
  {
    if ops == [] {
      assert RowStart(Blocks(0), 0) == 0;
    } else {
      var before, op := ops[..|ops| - 1], ops[|ops| - 1];
      hide RowStart, Blocks;
      Shape(before);
      if !op.Resize? {
        SameBlocks(After(NOTHING, before), op);
      }
    }
  }

  /** One of the stripes that count covers part of the block. */
  ghost predicate MetByOne(i: nat, columns: nat, height: nat, stripes: seq<Stripe>)
    requires columns > 0
  {
    exists index :: 0 <= index < |stripes| && index < 32 && Meets(i, columns, height, stripes[index])
  }

  /**
   A selection takes exactly the blocks that have been still for two hundred milliseconds,
   have refinements left, and have a row in one of the first thirty-two stripes.
   */
  lemma SelectedIff(ops: seq<Op>, now: nat, stripes: seq<Stripe>, i: nat)
    requires After(NOTHING, ops).height <= U64_MAX
    ensures var t := After(NOTHING, ops);
            i in After(NOTHING, ops + [Select(now, stripes)]).selected <==>
              i < |t.blocks| && t.columns > 0 && Ripe(ops, i, now) && MetByOne(i, t.columns, t.height, stripes)
  {
    hide Ripe, Meets, Touches, RowStart, Blocks;
    var t, all := After(NOTHING, ops), ops + [Select(now, stripes)];
    assert all[..|ops|] == ops && After(NOTHING, all) == Selected(t, now, stripes);
    Shape(ops);
    if t.columns > 0 {
      ChosenAreSelectable(t, now, stripes, |t.blocks|);
      if i < |t.blocks| {
        RipeIff(ops, i, now);
        forall index | 0 <= index < |stripes|
          ensures Touches(i, t.columns, t.height, stripes[index]) <==> Meets(i, t.columns, t.height, stripes[index])
        {
          MeetsIff(i, t.columns, t.height, stripes[index]);
        }
        SelectableIff(t, now, stripes, i);
      }
    }
  }

  lemma SelectableIff(t: Tracker, now: nat, stripes: seq<Stripe>, i: nat)
    requires i < |t.blocks| && t.columns > 0
    requires forall index :: 0 <= index < |stripes| ==>
               (Touches(i, t.columns, t.height, stripes[index]) <==> Meets(i, t.columns, t.height, stripes[index]))
    ensures Selectable(t, now, stripes, i) <==> t.blocks[i].Due(now) && MetByOne(i, t.columns, t.height, stripes)
  {
    hide Meets, Touches;
    if MetByOne(i, t.columns, t.height, stripes) {
      var index :| 0 <= index < |stripes| && index < 32 && Meets(i, t.columns, t.height, stripes[index]);
      assert Covers(i, t.columns, t.height, stripes, index);
    }
  }

  /** A stripe is to be refined exactly if one of the ripe blocks has a row in it. */
  lemma StripeRefinedIff(ops: seq<Op>, now: nat, stripes: seq<Stripe>, index: nat)
    requires var t := After(NOTHING, ops); t.columns > 0 && t.height <= U64_MAX
    ensures var t := After(NOTHING, ops);
            Paintover.Refines(t, now, stripes, |t.blocks|, index) <==>
              index < |stripes| && index < 32
              && exists i: nat :: i < |t.blocks| && Ripe(ops, i, now) && Meets(i, t.columns, t.height, stripes[index])
  {
    hide Ripe, Meets, Touches, RowStart, Blocks;
    var t := After(NOTHING, ops);
    Shape(ops);
    if index < |stripes| {
      forall i: nat | i < |t.blocks|
        ensures t.blocks[i].Due(now) <==> Ripe(ops, i, now)
        ensures Touches(i, t.columns, t.height, stripes[index]) <==> Meets(i, t.columns, t.height, stripes[index])
      {
        RipeIff(ops, i, now);
        MeetsIff(i, t.columns, t.height, stripes[index]);
      }
    }
  }
}
