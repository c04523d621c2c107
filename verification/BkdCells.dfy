/** The cells of a tree: the bounds of all points, cut at the recorded splits on the way
    down. */
module BkdCells {
  import opened Bytes
  import opened BkdLayout
  import opened BkdSelect
  import opened BkdTree

  /** The bound of a cell, cut at the split value in the split dimension. */
  function Cut(cfg: Config, bound: seq<Byte>, split: Split): (r: seq<Byte>)
    ensures |r| == |bound|
  {
    if split.dim * cfg.bytesPerDim + cfg.bytesPerDim <= |bound| && |split.value| == cfg.bytesPerDim then
      SetDim(bound, split.dim, cfg.bytesPerDim, split.value)
    else bound
  }

  /** The two halves of a split lie in the two cells the reader cuts. */
  lemma HalvesInCells(cfg: Config, split: Split, min: seq<Byte>, max: seq<Byte>, left: seq<Point>, right: seq<Point>)
    requires AllInCell(cfg, left, min, max) && AllInCell(cfg, right, min, max) && Sides(cfg, split, left, right)
    ensures AllInCell(cfg, left, min, Cut(cfg, max, split))
    ensures AllInCell(cfg, right, Cut(cfg, min, split), max)
  {
    forall p <- left ensures InCell(cfg, p.packed, min, Cut(cfg, max, split)) {
      assert InCell(cfg, p.packed, min, max) && CoordOf(cfg, p, split.dim) <= Val(split.value);
      CutCell(cfg, p.packed, min, max, split.dim, split.value);
    }
    forall p <- right ensures InCell(cfg, p.packed, Cut(cfg, min, split), max) {
      assert InCell(cfg, p.packed, min, max) && Val(split.value) <= CoordOf(cfg, p, split.dim);
      CutCell(cfg, p.packed, min, max, split.dim, split.value);
    }
  }

  lemma PartsInCell(cfg: Config, pts: seq<Point>, m: nat, min: seq<Byte>, max: seq<Byte>)
    requires AllInCell(cfg, pts, min, max) && m <= |pts|
    ensures AllInCell(cfg, pts[..m], min, max) && AllInCell(cfg, pts[m..], min, max)
  {
  }

  /** A split of points in a cell puts either half into its part of the cell. */
  lemma SplitInCells(cfg: Config, le: Order, points: seq<Point>, left: seq<Point>, right: seq<Point>, split: Split,
                     min: seq<Byte>, max: seq<Byte>)
    requires cfg.Valid() && IsKeyOrder(cfg, le) && split.dim < cfg.numIndexDims
    requires IsPivot(cfg, le, split.dim, left, right, split.value) && AllInCell(cfg, points, min, max)
    requires multiset(left + right) == multiset(points)
    ensures AllInCell(cfg, left, min, Cut(cfg, max, split)) && AllInCell(cfg, right, Cut(cfg, min, split), max)
  {
    SameElements(left + right, points);
    forall p | p in left || p in right ensures InCell(cfg, p.packed, min, max) {
      assert p in left + right;
    }
    hide IsPivot, Sides, Cut, InCell;
    SplitBounds(cfg, le, split.dim, left, left, right, right, split.value);
    HalvesInCells(cfg, split, min, max, left, right);
  }

  // The widest dimension

  ghost function Span(cfg: Config, min: seq<Byte>, max: seq<Byte>, dim: nat): int
    requires cfg.Valid() && IsBound(cfg, min) && IsBound(cfg, max) && dim < cfg.numIndexDims
  {
    CoordOk(cfg, min, dim);
    CoordOk(cfg, max, dim);
    Coord(cfg, max, dim) - Coord(cfg, min, dim)
  }

  /** The dimension is the first of the widest ones of the cell. */
  ghost predicate Widest(cfg: Config, min: seq<Byte>, max: seq<Byte>, dim: nat) {
    && cfg.Valid() && IsBound(cfg, min) && IsBound(cfg, max) && dim < cfg.numIndexDims
    && forall d: nat | d < cfg.numIndexDims ::
         && Span(cfg, min, max, d) <= Span(cfg, min, max, dim)
         && (d < dim ==> Span(cfg, min, max, d) < Span(cfg, min, max, dim))
  }

  /** A cell that holds a point is proper. */
  lemma ProperCell(cfg: Config, pts: seq<Point>, min: seq<Byte>, max: seq<Byte>)
    requires pts != [] && AllInCell(cfg, pts, min, max)
    ensures cfg.Valid() && IsBound(cfg, min) && IsBound(cfg, max)
    ensures forall d: nat | d < cfg.numIndexDims :: 0 <= Span(cfg, min, max, d)
  {
    assert InCell(cfg, pts[0].packed, min, max);
    forall d: nat | d < cfg.numIndexDims ensures 0 <= Span(cfg, min, max, d) {
      assert Between(cfg, pts[0].packed, min, max, d);
    }
  }

  /** From `node` down every inner node splits on the first of the widest dimensions of its
      cell. */
  ghost predicate SplitsWidest(cfg: Config, splits: seq<Split>, leaves: nat, node: nat,
                               min: seq<Byte>, max: seq<Byte>)
    requires node >= 1
    decreases Measure(leaves, node)
  {
    node >= leaves ||
    (&& node < |splits| && Widest(cfg, min, max, splits[node].dim)
     && SplitsWidest(cfg, splits, leaves, 2 * node, min, Cut(cfg, max, splits[node]))
     && SplitsWidest(cfg, splits, leaves, 2 * node + 1, Cut(cfg, min, splits[node]), max))
  }

  lemma {:induction false} WidestStable(cfg: Config, fps: seq<nat>, fps': seq<nat>, splits: seq<Split>,
                                        splits': seq<Split>, node: nat, min: seq<Byte>, max: seq<Byte>)
    requires node >= 1 && SplitsWidest(cfg, splits, |fps|, node, min, max)
    requires SameUnder(node, fps, fps', splits, splits')
    ensures SplitsWidest(cfg, splits', |fps|, node, min, max)
    decreases Measure(|fps|, node)
  {
    hide Widest, Cut;
    if node < |fps| {
      assert Under(node, node);
      SameUnderHalves(node, fps, fps', splits, splits');
      WidestStable(cfg, fps, fps', splits, splits', 2 * node, min, Cut(cfg, max, splits[node]));
      WidestStable(cfg, fps, fps', splits, splits', 2 * node + 1, Cut(cfg, min, splits[node]), max);
    }
  }

  /** The cell of a node: that of its parent, cut at the parent's split. */
  ghost function CellOf(cfg: Config, splits: seq<Split>, node: nat, min: seq<Byte>, max: seq<Byte>):
    (seq<Byte>, seq<Byte>)
    requires node >= 1
  {
    if node == 1 || node / 2 >= |splits| then (min, max)
    else
      var (low, high) := CellOf(cfg, splits, node / 2, min, max);
      var split := splits[node / 2];
      if node % 2 == 0 then (low, Cut(cfg, high, split)) else (Cut(cfg, low, split), high)
  }

  /** So every inner node splits on the first of the widest dimensions of its cell. */
  lemma {:induction false} WidestAt(cfg: Config, splits: seq<Split>, leaves: nat, node: nat, k: nat,
                                    min: seq<Byte>, max: seq<Byte>)
    requires 1 <= node && Under(node, k) && k < leaves <= |splits|
    requires var (low, high) := CellOf(cfg, splits, node, min, max);
             SplitsWidest(cfg, splits, leaves, node, low, high)
    ensures var (low, high) := CellOf(cfg, splits, k, min, max);
            Widest(cfg, low, high, splits[k].dim) && SplitsWidest(cfg, splits, leaves, k, low, high)
    decreases k
  {
    hide Widest, Cut;
    if k != node {
      WidestAt(cfg, splits, leaves, node, k / 2, min, max);
    }
  }
}
