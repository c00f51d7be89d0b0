/** Comparing frames block by block while keeping the last one, in place. */
module Paintover {
  import opened Arithmetic
  import opened Basics
  import opened PaintoverModel

  /** The retained buffer, or a fresh one of the same shape, against a new frame. */
  datatype Grid = Grid(buffer: Octets, width: nat, height: nat)
  {
    ghost predicate Shaped() {
      |buffer| == RowStart(Rows(height), width)
    }
  }

  /** Position (r, c) changes when the frame `p` replaces what the buffer holds. */
  ghost predicate Differs(g: Grid, p: Picture, r: nat, c: nat)
    requires g.Shaped() && Acceptable(p) && g.width == p.width && g.height == p.height
    requires r < Rows(g.height) && c < g.width
  {
    Cell(g.buffer, g.width, Rows(g.height), r, c) != Pixel(p, r, c)
  }

  ghost predicate BlockDiffers(g: Grid, p: Picture, block: nat)
    requires g.Shaped() && Acceptable(p) && g.width == p.width && g.height == p.height
  {
    exists r, c :: 0 <= r < Rows(g.height) && 0 <= c < g.width
                   && BlockAt(g.width, g.height, r, c) == block && Differs(g, p, r, c)
  }

  // ----- one row -----

  function Splice(buffer: Octets, at: nat, piece: Octets): Octets
    requires at + |piece| <= |buffer|
  {
    buffer[..at] + piece + buffer[at + |piece|..]
  }

  lemma SpliceRow(buffer: Octets, width: nat, rows: nat, s: nat, x: nat, piece: Octets, r: nat, c: nat)
    requires |buffer| == RowStart(rows, width) && s < rows && x + |piece| <= width && r < rows && c < width
    ensures RowStart(s, width) + x + |piece| <= |buffer|
    ensures var after := Splice(buffer, RowStart(s, width) + x, piece);
            |after| == |buffer| &&
            Cell(after, width, rows, r, c) ==
            if r == s && x <= c < x + |piece| then piece[c - x] else Cell(buffer, width, rows, r, c)
  {
    hide RowStart;
    RowFits(r, rows, width, c + 1);
    RowFits(s, rows, width, x + |piece|);
    RowStretch(width, r, c, s, x, x + |piece|);
  }

  // ----- a band of rows -----

  predicate InBand(r: nat, c: nat, lo: nat, hi: nat, x: nat, right: nat) {
    lo <= r < hi && x <= c < right
  }

  /** `after` is `before` with the band taken from the frame. */
  ghost predicate Updated(before: Octets, after: Octets, p: Picture, lo: nat, hi: nat, x: nat, right: nat)
    requires Acceptable(p)
  {
    && |before| == |after| == RowStart(Rows(p.height), p.width)
    && forall r, c :: 0 <= r < Rows(p.height) && 0 <= c < p.width ==>
         Cell(after, p.width, Rows(p.height), r, c) ==
         if InBand(r, c, lo, hi, x, right) then Pixel(p, r, c) else Cell(before, p.width, Rows(p.height), r, c)
  }

  ghost predicate BandDiffers(before: Octets, p: Picture, lo: nat, hi: nat, x: nat, right: nat)
    requires Acceptable(p) && |before| == RowStart(Rows(p.height), p.width)
  {
    exists r, c :: 0 <= r < Rows(p.height) && 0 <= c < p.width && InBand(r, c, lo, hi, x, right)
                   && Differs(Grid(before, p.width, p.height), p, r, c)
  }

  /** The visible bytes of packed row `s` from column `x` to `right`. */
  ghost predicate IsRow(p: Picture, s: nat, x: nat, right: nat, piece: Octets)
    requires Acceptable(p) && s < Rows(p.height) && x <= right <= p.width
  {
    |piece| == right - x && forall c :: x <= c < right ==> piece[c - x] == Pixel(p, s, c)
  }

  lemma RowUpdates(before: Octets, mid: Octets, p: Picture, lo: nat, s: nat, x: nat, right: nat, piece: Octets)
    requires Acceptable(p) && lo <= s < Rows(p.height) && x <= right <= p.width
    requires Updated(before, mid, p, lo, s, x, right) && IsRow(p, s, x, right, piece)
    ensures RowStart(s, p.width) + right <= |mid|
    ensures Updated(before, Splice(mid, RowStart(s, p.width) + x, piece), p, lo, s + 1, x, right)
  {
    hide Cell, Pixel, Splice, RowStart;
    RowFits(s, Rows(p.height), p.width, right);
    forall r, c | 0 <= r < Rows(p.height) && 0 <= c < p.width
      ensures |Splice(mid, RowStart(s, p.width) + x, piece)| == |mid|
      ensures Cell(Splice(mid, RowStart(s, p.width) + x, piece), p.width, Rows(p.height), r, c) ==
              if InBand(r, c, lo, s + 1, x, right) then Pixel(p, r, c) else Cell(before, p.width, Rows(p.height), r, c)
    {
      SpliceRow(mid, p.width, Rows(p.height), s, x, piece, r, c);
    }
    SpliceRow(mid, p.width, Rows(p.height), s, x, piece, s, 0);
  }

  /** Comparing one row finds a difference exactly if one of its positions differs. */
  lemma RowCompares(before: Octets, mid: Octets, p: Picture, lo: nat, s: nat, x: nat, right: nat, piece: Octets)
    requires Acceptable(p) && lo <= s < Rows(p.height) && x <= right <= p.width
    requires Updated(before, mid, p, lo, s, x, right) && IsRow(p, s, x, right, piece)
    ensures RowStart(s, p.width) + right <= |mid|
    ensures mid[RowStart(s, p.width) + x..RowStart(s, p.width) + right] != piece <==> BandDiffers(before, p, s, s + 1, x, right)
  {
    hide Pixel, RowStart;
    RowFits(s, Rows(p.height), p.width, right);
    var kept := mid[RowStart(s, p.width) + x..RowStart(s, p.width) + right];
    forall c | x <= c < right
      ensures kept[c - x] == Cell(before, p.width, Rows(p.height), s, c)
      ensures kept[c - x] != piece[c - x] <==> Differs(Grid(before, p.width, p.height), p, s, c)
    {
      assert kept[c - x] == mid[RowStart(s, p.width) + c];
      assert Cell(mid, p.width, Rows(p.height), s, c) == Cell(before, p.width, Rows(p.height), s, c);
    }
    hide Differs;
    if kept != piece {
      var k :| 0 <= k < |kept| && kept[k] != piece[k];
      assert Differs(Grid(before, p.width, p.height), p, s, x + k);
      assert InBand(s, x + k, s, s + 1, x, right);
    }
    if BandDiffers(before, p, s, s + 1, x, right) {
      var r, c :| 0 <= r < Rows(p.height) && 0 <= c < p.width && InBand(r, c, s, s + 1, x, right)
                  && Differs(Grid(before, p.width, p.height), p, r, c);
      assert kept[c - x] != piece[c - x];
    }
  }

  lemma BandExtends(before: Octets, p: Picture, lo: nat, s: nat, x: nat, right: nat)
    requires Acceptable(p) && |before| == RowStart(Rows(p.height), p.width) && lo <= s
    ensures BandDiffers(before, p, lo, s + 1, x, right) <==>
            BandDiffers(before, p, lo, s, x, right) || BandDiffers(before, p, s, s + 1, x, right)
  {
    hide Differs;
    if BandDiffers(before, p, lo, s + 1, x, right) {
      var r, c :| 0 <= r < Rows(p.height) && 0 <= c < p.width && InBand(r, c, lo, s + 1, x, right)
                  && Differs(Grid(before, p.width, p.height), p, r, c);
      assert InBand(r, c, lo, s, x, right) || InBand(r, c, s, s + 1, x, right);
    }
    if BandDiffers(before, p, lo, s, x, right) {
      var r, c :| 0 <= r < Rows(p.height) && 0 <= c < p.width && InBand(r, c, lo, s, x, right)
                  && Differs(Grid(before, p.width, p.height), p, r, c);
      assert InBand(r, c, lo, s + 1, x, right);
    }
    if BandDiffers(before, p, s, s + 1, x, right) {
      var r, c :| 0 <= r < Rows(p.height) && 0 <= c < p.width && InBand(r, c, s, s + 1, x, right)
                  && Differs(Grid(before, p.width, p.height), p, r, c);
      assert InBand(r, c, lo, s + 1, x, right);
    }
  }

  /** One plane of one block: compare each row with the retained one, then keep the new one. */
  method CopyBand(buffer: Octets, p: Picture, luma: bool, start: nat, end: nat, x: nat, right: nat)
    returns (after: Octets, changed: bool)
    requires Acceptable(p) && |buffer| == RowStart(Rows(p.height), p.width) && x <= right <= p.width
    requires start <= end <= if luma then p.height else p.height / 2
    ensures var base := if luma then 0 else p.height;
            && Updated(buffer, after, p, base + start, base + end, x, right)
            && changed == BandDiffers(buffer, p, base + start, base + end, x, right)
  {
    hide Cell, Pixel, BandDiffers, Updated, Splice, Acceptable, Rows, IsRow, RowStart;
    var source := if luma then p.luma else p.chroma;
    var stride := if luma then p.lumaStride else p.chromaStride;
    var base := if luma then 0 else p.height;
    after, changed := buffer, false;
    NothingYet(buffer, p, base + start, x, right);
    for row := start to end
      invariant |after| == |buffer|
      invariant Updated(buffer, after, p, base + start, base + row, x, right)
      invariant changed == BandDiffers(buffer, p, base + start, base + row, x, right)
    {
      SourceRow(p, luma, row, x, right);
      var next := source[RowStart(row, stride) + x..RowStart(row, stride) + right];
      RowCompares(buffer, after, p, base + start, base + row, x, right, next);
      RowUpdates(buffer, after, p, base + start, base + row, x, right, next);
      BandExtends(buffer, p, base + start, base + row, x, right);
      var at := RowStart(base + row, p.width) + x;
      changed := changed || after[at..at + (right - x)] != next;
      after := Splice(after, at, next);
      SameSize(buffer, after, p, base + start, base + row + 1, x, right);
    }
  }

  lemma NothingYet(buffer: Octets, p: Picture, lo: nat, x: nat, right: nat)
    requires Acceptable(p) && |buffer| == RowStart(Rows(p.height), p.width)
    ensures Updated(buffer, buffer, p, lo, lo, x, right) && !BandDiffers(buffer, p, lo, lo, x, right)
  {
  }

  lemma SameSize(before: Octets, after: Octets, p: Picture, lo: nat, hi: nat, x: nat, right: nat)
    requires Acceptable(p) && Updated(before, after, p, lo, hi, x, right)
    ensures |after| == |before|
  {
  }

  /** A slice of a source plane is a row of the packed frame. */
  lemma SourceRow(p: Picture, luma: bool, row: nat, x: nat, right: nat)
    requires Acceptable(p) && x <= right <= p.width && row < if luma then p.height else p.height / 2
    ensures var source := if luma then p.luma else p.chroma;
            var stride := if luma then p.lumaStride else p.chromaStride;
            var base := if luma then 0 else p.height;
            && RowStart(row, stride) + right <= |source| && base + row < Rows(p.height)
            && IsRow(p, base + row, x, right, source[RowStart(row, stride) + x..RowStart(row, stride) + right])
  {
    hide RowStart;
    if luma {
      RowFits(row, p.height, p.lumaStride, right);
    } else {
      RowFits(row, p.height / 2, p.chromaStride, right);
      assert p.height + row - p.height == row;
    }
  }

  // ----- a block -----

  /** `after` is `before` with every block below `k` taken from the frame. */
  ghost predicate UpdatedBelow(before: Octets, after: Octets, p: Picture, k: nat)
    requires Acceptable(p)
  {
    && |before| == |after| == RowStart(Rows(p.height), p.width)
    && forall r, c :: 0 <= r < Rows(p.height) && 0 <= c < p.width ==>
         Cell(after, p.width, Rows(p.height), r, c) ==
         if BlockAt(p.width, p.height, r, c) < k then Pixel(p, r, c) else Cell(before, p.width, Rows(p.height), r, c)
  }

  /** The luma and chroma rows of block row `brow`. */
  function Bottom(brow: nat, height: nat): nat {
    Min(BLOCK * brow + BLOCK, height)
  }

  function Right(bcol: nat, width: nat): nat {
    Min(BLOCK * bcol + BLOCK, width)
  }

  /** A position is in block (brow, bcol) exactly if it is in the luma band or the chroma band of that block. */
  lemma BlockIsTwoBands(width: nat, height: nat, brow: nat, bcol: nat, r: nat, c: nat)
    requires height % 2 == 0 && r < Rows(height) && c < width && brow < Blocks(height) && bcol < Blocks(width)
    ensures BlockAt(width, height, r, c) == RowStart(brow, Blocks(width)) + bcol <==>
            || InBand(r, c, BLOCK * brow, Bottom(brow, height), BLOCK * bcol, Right(bcol, width))
            || InBand(r, c, height + BLOCK * brow / 2, height + Bottom(brow, height) / 2, BLOCK * bcol, Right(bcol, width))
  {
    hide RowStart, LumaRow, Bottom, Right;
    ColumnInBlock(width, bcol, c);
    RowInBlock(height, brow, r);
    SamePosition(Blocks(width), LumaRow(height, r) / BLOCK, c / BLOCK, brow, bcol);
  }

  lemma ColumnInBlock(width: nat, bcol: nat, c: nat)
    requires c < width
    ensures c / BLOCK < Blocks(width)
    ensures c / BLOCK == bcol <==> BLOCK * bcol <= c < Right(bcol, width)
  {
  }

  lemma RowInBlock(height: nat, brow: nat, r: nat)
    requires height % 2 == 0 && r < Rows(height)
    ensures LumaRow(height, r) / BLOCK == brow <==>
            || BLOCK * brow <= r < Bottom(brow, height)
            || height + BLOCK * brow / 2 <= r < height + Bottom(brow, height) / 2
  {
    if r >= height {
      assert LumaRow(height, r) / BLOCK == brow <==> BLOCK * brow <= 2 * (r - height) < BLOCK * brow + BLOCK;
    }
  }

  lemma BlockUpdates(before: Octets, mid: Octets, one: Octets, two: Octets, p: Picture, brow: nat, bcol: nat)
    requires Acceptable(p) && brow < Blocks(p.height) && bcol < Blocks(p.width)
    requires UpdatedBelow(before, mid, p, RowStart(brow, Blocks(p.width)) + bcol)
    requires Updated(mid, one, p, BLOCK * brow, Bottom(brow, p.height), BLOCK * bcol, Right(bcol, p.width))
    requires Updated(one, two, p, p.height + BLOCK * brow / 2, p.height + Bottom(brow, p.height) / 2, BLOCK * bcol, Right(bcol, p.width))
    ensures UpdatedBelow(before, two, p, RowStart(brow, Blocks(p.width)) + bcol + 1)
  {
    hide Cell, Pixel, BlockAt, RowStart;
    forall r, c | 0 <= r < Rows(p.height) && 0 <= c < p.width
      ensures Cell(two, p.width, Rows(p.height), r, c) ==
              if BlockAt(p.width, p.height, r, c) < RowStart(brow, Blocks(p.width)) + bcol + 1 then Pixel(p, r, c)
              else Cell(before, p.width, Rows(p.height), r, c)
    {
      BlockIsTwoBands(p.width, p.height, brow, bcol, r, c);
    }
  }

  /** The two band comparisons together say whether the block differs from what was retained at the start. */
  lemma BlockCompares(before: Octets, mid: Octets, one: Octets, p: Picture, brow: nat, bcol: nat)
    requires Acceptable(p) && brow < Blocks(p.height) && bcol < Blocks(p.width)
    requires UpdatedBelow(before, mid, p, RowStart(brow, Blocks(p.width)) + bcol)
    requires Updated(mid, one, p, BLOCK * brow, Bottom(brow, p.height), BLOCK * bcol, Right(bcol, p.width))
    ensures BlockDiffers(Grid(before, p.width, p.height), p, RowStart(brow, Blocks(p.width)) + bcol) <==>
            || BandDiffers(mid, p, BLOCK * brow, Bottom(brow, p.height), BLOCK * bcol, Right(bcol, p.width))
            || BandDiffers(one, p, p.height + BLOCK * brow / 2, p.height + Bottom(brow, p.height) / 2, BLOCK * bcol, Right(bcol, p.width))
  {
    hide Cell, Pixel, BlockAt, RowStart;
    var block := RowStart(brow, Blocks(p.width)) + bcol;
    var g, m, o := Grid(before, p.width, p.height), Grid(mid, p.width, p.height), Grid(one, p.width, p.height);
    forall r, c | 0 <= r < Rows(p.height) && 0 <= c < p.width && BlockAt(p.width, p.height, r, c) == block
      ensures Differs(g, p, r, c) <==> Differs(m, p, r, c)
      ensures r >= p.height ==> (Differs(g, p, r, c) <==> Differs(o, p, r, c))
    {
      assert r >= p.height ==> !InBand(r, c, BLOCK * brow, Bottom(brow, p.height), BLOCK * bcol, Right(bcol, p.width));
    }
    hide Differs;
    if BlockDiffers(g, p, block) {
      var r, c :| 0 <= r < Rows(p.height) && 0 <= c < p.width && BlockAt(p.width, p.height, r, c) == block && Differs(g, p, r, c);
      BlockIsTwoBands(p.width, p.height, brow, bcol, r, c);
    }
    if BandDiffers(mid, p, BLOCK * brow, Bottom(brow, p.height), BLOCK * bcol, Right(bcol, p.width)) {
      var r, c :| 0 <= r < Rows(p.height) && 0 <= c < p.width
                  && InBand(r, c, BLOCK * brow, Bottom(brow, p.height), BLOCK * bcol, Right(bcol, p.width)) && Differs(m, p, r, c);
      BlockIsTwoBands(p.width, p.height, brow, bcol, r, c);
    }
    if BandDiffers(one, p, p.height + BLOCK * brow / 2, p.height + Bottom(brow, p.height) / 2, BLOCK * bcol, Right(bcol, p.width)) {
      var r, c :| 0 <= r < Rows(p.height) && 0 <= c < p.width
                  && InBand(r, c, p.height + BLOCK * brow / 2, p.height + Bottom(brow, p.height) / 2, BLOCK * bcol, Right(bcol, p.width))
                  && Differs(o, p, r, c);
      BlockIsTwoBands(p.width, p.height, brow, bcol, r, c);
    }
  }

  /** Compare and keep one block. */
  method ObserveBlock(ghost before: Octets, buffer: Octets, p: Picture, brow: nat, bcol: nat)
    returns (after: Octets, changed: bool)
    requires Acceptable(p) && brow < Blocks(p.height) && bcol < Blocks(p.width)
    requires UpdatedBelow(before, buffer, p, RowStart(brow, Blocks(p.width)) + bcol)
    ensures UpdatedBelow(before, after, p, RowStart(brow, Blocks(p.width)) + bcol + 1)
    ensures changed == BlockDiffers(Grid(before, p.width, p.height), p, RowStart(brow, Blocks(p.width)) + bcol)
  {
    hide Cell, Pixel, BandDiffers, BlockDiffers, RowStart;
    var x, right := BLOCK * bcol, Right(bcol, p.width);
    var top, bottom := BLOCK * brow, Bottom(brow, p.height);
    var one, first := CopyBand(buffer, p, true, top, bottom, x, right);
    var two, second := CopyBand(one, p, false, top / 2, bottom / 2, x, right);
    BlockCompares(before, buffer, one, p, brow, bcol);
    BlockUpdates(before, buffer, one, two, p, brow, bcol);
    after, changed := two, first || second;
  }

  // ----- the tracker -----

  /** The blocks a new frame re-arms. */
  ghost predicate Rearmed(first: bool, g: Grid, p: Picture, block: nat)
    requires g.Shaped() && Acceptable(p) && g.width == p.width && g.height == p.height
  {
    first || BlockDiffers(g, p, block)
  }

  ghost function AllRearmed(first: bool, g: Grid, p: Picture, n: nat): set<nat>
    requires g.Shaped() && Acceptable(p) && g.width == p.width && g.height == p.height
  {
    set k | 0 <= k < n && Rearmed(first, g, p, k)
  }

  ghost predicate AnyRearmed(first: bool, g: Grid, p: Picture, n: nat)
    requires g.Shaped() && Acceptable(p) && g.width == p.width && g.height == p.height
  {
    exists k :: 0 <= k < n && Rearmed(first, g, p, k)
  }

  lemma NewSizeMoves(g: Grid, p: Picture, blocks: seq<Paintover>, now: nat)
    requires g.Shaped() && Acceptable(p) && g.width == p.width && g.height == p.height
    requires |blocks| == RowStart(Blocks(p.height), Blocks(p.width))
    requires forall k :: 0 <= k < |blocks| && Rearmed(true, g, p, k) ==> blocks[k] == Moved(now)
    ensures blocks == Resized(Blocks(p.width), p.height, now).blocks
  {
    hide RowStart, BlockDiffers;
    forall k | 0 <= k < |blocks|
      ensures blocks[k] == Moved(now)
    {
      assert Rearmed(true, g, p, k);
    }
  }

  /** Walk the blocks of a frame: compare, keep, re-arm. */
  method Compare(buffer: Octets, armed: seq<Paintover>, p: Picture, first: bool, now: nat)
    returns (after: Octets, blocks: seq<Paintover>, moved: bool)
    requires Acceptable(p) && |buffer| == RowStart(Rows(p.height), p.width)
    requires |armed| == RowStart(Blocks(p.height), Blocks(p.width))
    ensures |after| == |buffer| && Mirrors(after, p)
    ensures var g := Grid(buffer, p.width, p.height);
            && |blocks| == |armed|
            && (forall k :: 0 <= k < |blocks| ==> blocks[k] == if Rearmed(first, g, p, k) then Moved(now) else armed[k])
            && (moved <==> AnyRearmed(first, g, p, |blocks|))
  {
    hide Cell, Pixel, BlockDiffers, RowStart, UpdatedBelow, Acceptable, Rearmed;
    ghost var g := Grid(buffer, p.width, p.height);
    after, blocks, moved := buffer, armed, false;
    NoneUpdated(buffer, p);
    RowZero(Blocks(p.width));
    for brow := 0 to Blocks(p.height)
      invariant UpdatedBelow(buffer, after, p, RowStart(brow, Blocks(p.width)))
      invariant Progress(first, g, p, armed, blocks, RowStart(brow, Blocks(p.width)), now, moved)
    {
      for bcol := 0 to Blocks(p.width)
        invariant UpdatedBelow(buffer, after, p, RowStart(brow, Blocks(p.width)) + bcol)
        invariant Progress(first, g, p, armed, blocks, RowStart(brow, Blocks(p.width)) + bcol, now, moved)
      {
        var k := RowStart(brow, Blocks(p.width)) + bcol;
        var differs;
        after, differs := ObserveBlock(buffer, after, p, brow, bcol);
        RowFits(brow, Blocks(p.height), Blocks(p.width), bcol + 1);
        ProgressOn(first, g, p, armed, blocks, k, now, moved, differs);
        if first || differs {
          blocks := blocks[k := Moved(now)];
          moved := true;
        }
      }
      RowFollows(brow, Blocks(p.width));
    }
    AllUpdated(buffer, after, p);
  }

  /** The buffer is the tightly packed visible frame. */
  ghost predicate Mirrors(buffer: Octets, p: Picture)
    requires Acceptable(p) && |buffer| == RowStart(Rows(p.height), p.width)
  {
    forall r, c :: 0 <= r < Rows(p.height) && 0 <= c < p.width ==>
      Cell(buffer, p.width, Rows(p.height), r, c) == Pixel(p, r, c)
  }

  class SpatialPaintover {
    var width: nat
    var height: nat
    var previous: Octets
    var blocks: seq<Paintover>
    var selected: seq<nat>

    ghost predicate Valid()
      reads this
    {
      && |previous| == RowStart(Rows(height), width)
      && |blocks| == RowStart(Blocks(height), Blocks(width))
      && (forall i :: i in selected ==> i < |blocks|)
      && (forall a, b :: 0 <= a < b < |selected| ==> selected[a] < selected[b])
    }

    ghost function View(): Tracker
      reads this
    {
      Tracker(Blocks(width), height, blocks, selected)
    }

    constructor ()
      ensures Valid() && View() == Tracker(0, 0, [], [])
    {
      width, height, previous, blocks, selected := 0, 0, [], [], [];
    }

    /** What a frame of another size is compared with: nothing retained, every block quiet. */
    ghost function Retained(p: Picture): Grid
      reads this
    {
      if width == p.width && height == p.height then Grid(previous, width, height)
      else Grid(seq(RowStart(Rows(p.height), p.width), _ => 0), p.width, p.height)
    }

    ghost function Armed(p: Picture): seq<Paintover>
      reads this
    {
      if width == p.width && height == p.height then blocks
      else seq(RowStart(Blocks(p.height), Blocks(p.width)), _ => QUIET)
    }

    /**
     After a frame is observed the buffer is exactly its packed visible bytes, and
     exactly the blocks with a changed luma or chroma byte, or all of a frame of a
     new size, are re-armed. A frame that does not fit its strides changes nothing.
     */
    method Observe(p: Picture, now: nat) returns (motion: Option<bool>)
      requires Valid()
      modifies this
      ensures Valid()
      ensures motion.Some? <==> Acceptable(p)
      ensures motion.None? ==> View() == old(View()) && previous == old(previous) && width == old(width)
      ensures motion.Some? ==>
                && width == p.width && height == p.height && selected == []
                && Mirrors(previous, p)
                && |blocks| == |old(Armed(p))|
                && (forall k :: 0 <= k < |blocks| ==>
                      blocks[k] == if Rearmed(old(width) != p.width || old(height) != p.height, old(Retained(p)), p, k)
                                   then Moved(now) else old(Armed(p))[k])
                && (old(width) == p.width && old(height) == p.height ==>
                      View() == Observed(old(View()), AllRearmed(false, old(Retained(p)), p, |blocks|), now))
                && (old(width) != p.width || old(height) != p.height ==> View() == Resized(Blocks(p.width), p.height, now))
                && (motion.value <==> AnyRearmed(old(width) != p.width || old(height) != p.height, old(Retained(p)), p, |blocks|))
    {
      hide Mirrors, Rearmed, RowStart;
      var ok := Fits(p);
      if !ok {
        return None;
      }
      var first := width != p.width || height != p.height;
      if first {
        width, height := p.width, p.height;
        previous := seq(RowStart(Rows(height), width), _ => 0);
        blocks := seq(RowStart(Blocks(height), Blocks(width)), _ => QUIET);
      }
      selected := [];
      ghost var g := Grid(previous, width, height);
      var moved;
      previous, blocks, moved := Compare(previous, blocks, p, first, now);
      if first {
        NewSizeMoves(g, p, blocks, now);
      }
      motion := Some(moved);
    }

    /** `select`: the stripes to refine now, and the blocks that wait for them. */
    method SelectDue(now: nat, stripes: seq<Stripe>) returns (mask: set<nat>)
      requires Valid()
      modifies this`selected
      ensures Valid() && View() == Selected(old(View()), now, stripes)
      ensures MaskIs(mask, View(), now, stripes, |blocks|)
    {
      hide MaskIs, Selectable, Blocks, RowStart;
      ghost var t := View();
      selected, mask := [], {};
      NoneRefined(t, now, stripes);
      if width == 0 {
        NoColumns(height, width);
        SameRefinement(t, View(), now, stripes, mask);
        return;
      }
      SomeColumns(width);
      for i := 0 to |blocks|
        invariant selected == Chosen(t, now, stripes, i)
        invariant forall a :: 0 <= a < |selected| ==> selected[a] < i
        invariant forall a, b :: 0 <= a < b < |selected| ==> selected[a] < selected[b]
        invariant MaskIs(mask, t, now, stripes, i)
      {
        var touched := {};
        if blocks[i].Due(now) {
          touched := Touched(i, Blocks(width), height, stripes);
        }
        BlockRefines(t, now, stripes, i, mask, touched);
        mask := mask + touched;
        if touched != {} {
          selected := selected + [i];
        }
      }
      SameRefinement(t, View(), now, stripes, mask);
    }

    /** `painted`: the selected blocks have reached the output. */
    method Delivered()
      requires Valid()
      modifies this`blocks, this`selected
      ensures Valid() && View() == PaintedAll(old(View()))
    {
      hide RowStart;
      ghost var before := blocks;
      var done := 0;
      assert blocks == Marked(before, selected, 0);
      while done < |selected|
        invariant done <= |selected| && |blocks| == |before| == |old(blocks)|
        invariant selected == old(selected) && Valid()
        invariant blocks == Marked(before, selected, done)
        decreases |selected| - done
      {
        var i := selected[done];
        assert i in selected && i !in selected[..done];
        blocks := blocks[i := blocks[i].Painted()];
        done := done + 1;
      }
      selected := [];
    }

    /** The bounds `observe` checks before it touches anything. */
    method Fits(p: Picture) returns (ok: bool)
      ensures ok == Acceptable(p)
    {
      ok := !(p.width == 0 || p.height == 0 || p.width > 8192 || p.height > 8192
              || p.width % 2 != 0 || p.height % 2 != 0
              || p.lumaStride < p.width || p.chromaStride < p.width
              || |p.luma| < RowStart(p.height, p.lumaStride) || |p.chroma| < RowStart(p.height / 2, p.chromaStride));
    }
  }

  /** `before` with the first `n` of the selected blocks painted once. */
  ghost function Marked(before: seq<Paintover>, selected: seq<nat>, n: nat): seq<Paintover>
    requires n <= |selected|
  {
    seq(|before|, i requires 0 <= i < |before| => if i in selected[..n] then before[i].Painted() else before[i])
  }

  /** Stripe `index` overlaps a due block among the first `n`. */
  ghost predicate Refines(t: Tracker, now: nat, stripes: seq<Stripe>, n: nat, index: nat)
    requires n <= |t.blocks|
  {
    exists k :: 0 <= k < n && t.columns > 0 && t.blocks[k].Due(now) && Covers(k, t.columns, t.height, stripes, index)
  }

  ghost predicate MaskIs(mask: set<nat>, t: Tracker, now: nat, stripes: seq<Stripe>, n: nat)
    requires n <= |t.blocks|
  {
    forall index: nat :: index in mask <==> Refines(t, now, stripes, n, index)
  }

  lemma NoneRefined(t: Tracker, now: nat, stripes: seq<Stripe>)
    ensures MaskIs({}, t, now, stripes, 0)
  {
  }

  lemma SameRefinement(t: Tracker, u: Tracker, now: nat, stripes: seq<Stripe>, mask: set<nat>)
    requires u == t.(selected := u.selected) && MaskIs(mask, t, now, stripes, |t.blocks|)
    ensures MaskIs(mask, u, now, stripes, |u.blocks|)
  {
    forall index: nat
      ensures Refines(t, now, stripes, |t.blocks|, index) <==> Refines(u, now, stripes, |u.blocks|, index)
    {
    }
  }

  /** The stripes block `i` overlaps. */
  ghost predicate TouchedIs(touched: set<nat>, i: nat, columns: nat, height: nat, stripes: seq<Stripe>)
    requires columns > 0
  {
    forall index: nat :: index in touched <==> Covers(i, columns, height, stripes, index)
  }

  lemma BlockRefines(t: Tracker, now: nat, stripes: seq<Stripe>, i: nat, mask: set<nat>, touched: set<nat>)
    requires i < |t.blocks| && t.columns > 0 && MaskIs(mask, t, now, stripes, i)
    requires if t.blocks[i].Due(now) then TouchedIs(touched, i, t.columns, t.height, stripes) else touched == {}
    ensures MaskIs(mask + touched, t, now, stripes, i + 1)
    ensures Selectable(t, now, stripes, i) <==> touched != {}
  {
    hide Touches;
    forall index: nat
      ensures Refines(t, now, stripes, i + 1, index) <==> Refines(t, now, stripes, i, index) || index in touched
    {
      if index in touched {
        assert Covers(i, t.columns, t.height, stripes, index);
      }
    }
    if touched != {} {
      var index :| index in touched;
      assert 0 <= index < |stripes| && Covers(i, t.columns, t.height, stripes, index);
    }
  }

  method Touched(i: nat, columns: nat, height: nat, stripes: seq<Stripe>) returns (touched: set<nat>)
    requires columns > 0
    ensures TouchedIs(touched, i, columns, height, stripes)
  {
    hide Touches;
    touched := {};
    var n := Min(|stripes|, MAX_STRIPES);
    for index := 0 to n
      invariant forall k: nat :: k in touched <==> k < index && Covers(i, columns, height, stripes, k)
    {
      if Touches(i, columns, height, stripes[index]) {
        touched := touched + {index};
      }
    }
  }

  lemma NoColumns(height: nat, width: nat)
    requires width == 0
    ensures Blocks(width) == 0 && RowStart(Blocks(height), Blocks(width)) == 0
  {
  }

  lemma SomeColumns(width: nat)
    requires width > 0
    ensures Blocks(width) > 0
  {
  }

  /** The blocks below `k` are settled: re-armed or left as they were. */
  ghost predicate Progress(first: bool, g: Grid, p: Picture, armed: seq<Paintover>, blocks: seq<Paintover>, k: nat, now: nat, moved: bool)
    requires g.Shaped() && Acceptable(p) && g.width == p.width && g.height == p.height
  {
    && |blocks| == |armed| == RowStart(Blocks(p.height), Blocks(p.width))
    && (forall i :: 0 <= i < |blocks| ==> blocks[i] == if i < k && Rearmed(first, g, p, i) then Moved(now) else armed[i])
    && (moved <==> AnyRearmed(first, g, p, k))
  }

  lemma ProgressOn(first: bool, g: Grid, p: Picture, armed: seq<Paintover>, blocks: seq<Paintover>, k: nat, now: nat, moved: bool, differs: bool)
    requires g.Shaped() && Acceptable(p) && g.width == p.width && g.height == p.height
    requires Progress(first, g, p, armed, blocks, k, now, moved) && k < |blocks|
    requires differs == BlockDiffers(g, p, k)
    ensures Progress(first, g, p, armed, if first || differs then blocks[k := Moved(now)] else blocks, k + 1, now, moved || first || differs)
  {
    hide BlockDiffers, RowStart;
    assert Rearmed(first, g, p, k) == (first || differs);
  }

  lemma RowZero(width: nat)
    ensures RowStart(0, width) == 0
  {
  }

  lemma NoneUpdated(before: Octets, p: Picture)
    requires Acceptable(p) && |before| == RowStart(Rows(p.height), p.width)
    ensures UpdatedBelow(before, before, p, 0)
  {
  }

  /** Every position is in some block, so after the last block the whole buffer is the frame. */
  lemma AllUpdated(before: Octets, after: Octets, p: Picture)
    requires Acceptable(p) && UpdatedBelow(before, after, p, RowStart(Blocks(p.height), Blocks(p.width)))
    ensures |after| == |before| && Mirrors(after, p)
  {
    hide Cell, Pixel, RowStart;
    forall r, c | 0 <= r < Rows(p.height) && 0 <= c < p.width
      ensures BlockAt(p.width, p.height, r, c) < RowStart(Blocks(p.height), Blocks(p.width))
    {
      RowFits(LumaRow(p.height, r) / BLOCK, Blocks(p.height), Blocks(p.width), c / BLOCK + 1);
    }
  }
}
