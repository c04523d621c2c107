/** Writing a field from points that can be rearranged in place
    (codecs/simpletext/bkdwriter.go, `WriteField` and `buildV1`). */
module BkdFields {
  import opened Bytes
  import opened Text
  import opened Numerals
  import opened Powers
  import opened BkdLayout
  import opened BkdSelect
  import opened BkdTree
  import opened BkdCells
  import opened BkdIndex
  import opened BkdWriter
  import opened BkdFinish
  import opened BkdQuery
  import opened BkdRoundTrip

  /** `s` is `before` with only the points from `from` until `to` rearranged. */
  ghost predicate Around(before: seq<Point>, s: seq<Point>, from: nat, to: nat) {
    && |s| == |before| && from <= to <= |s|
    && s[..from] == before[..from] && s[to..] == before[to..]
    && multiset(s[from..to]) == multiset(before[from..to])
  }

  lemma AroundLeft(before: seq<Point>, s: seq<Point>, from: nat, mid: nat, to: nat)
    requires Around(before, s, from, mid) && mid <= to <= |s|
    ensures Around(before, s, from, to) && s[mid..to] == before[mid..to]
  {
    assert s[mid..to] == s[mid..][..to - mid] && before[mid..to] == before[mid..][..to - mid];
    assert s[from..to] == s[from..mid] + s[mid..to] && before[from..to] == before[from..mid] + before[mid..to];
    assert s[to..] == s[mid..][to - mid..] && before[to..] == before[mid..][to - mid..];
  }

  lemma AroundRight(before: seq<Point>, s: seq<Point>, from: nat, mid: nat, to: nat)
    requires Around(before, s, mid, to) && from <= mid
    ensures Around(before, s, from, to) && s[from..mid] == before[from..mid]
  {
    assert s[from..mid] == s[..mid][from..] && before[from..mid] == before[..mid][from..];
    assert s[from..to] == s[from..mid] + s[mid..to] && before[from..to] == before[from..mid] + before[mid..to];
    assert s[..from] == s[..mid][..from] && before[..from] == before[..mid][..from];
  }

  lemma Unmoved(s: seq<Point>, from: nat, to: nat)
    requires from <= to <= |s|
    ensures Around(s, s, from, to)
  {
  }

  lemma AroundTwice(a: seq<Point>, b: seq<Point>, c: seq<Point>, from: nat, to: nat)
    requires Around(a, b, from, to) && Around(b, c, from, to)
    ensures Around(a, c, from, to)
  {
  }

  /** Points that can be rearranged, by contract: partitioning a range around a position. */
  class MutablePoints {
    var points: seq<Point>

    constructor (points: seq<Point>)
      ensures this.points == points
    {
      this.points := points;
    }

    /** Partition: rejects a position outside the range, otherwise no key left of it is
        above the one there, and none right of it below. */
    method Partition(cfg: Config, from: nat, to: nat, mid: nat, dim: nat, ghost le: Order) returns (ok: bool)
      requires from <= mid && from <= to <= |points| && cfg.Valid() && dim < cfg.numDims
      requires IsKeyOrder(cfg, le) && AllPacked(cfg, points[from..to])
      modifies this
      ensures ok <==> mid < to
      ensures !ok ==> points == old(points)
      ensures |points| == |old(points)|
      ensures ok ==>
                && Around(old(points), points, from, to)
                && AllPacked(cfg, points[from..mid]) && AllPacked(cfg, points[mid..to])
                && dim * cfg.bytesPerDim + cfg.bytesPerDim <= |points[mid].packed|
                && IsPivot(cfg, le, dim, points[from..mid], points[mid..to],
                           Dim(points[mid].packed, dim, cfg.bytesPerDim))
    {
      hide IsKeyOrder, KeyLe;
      if mid >= to {
        return false;
      }
      ghost var was := points;
      var s := HeapRadixSort(cfg, points[from..to], dim, le);
      SameElements(s, points[from..to]);
      points := points[..from] + s + points[to..];
      Replaced(was, points, s, from, mid, to);
      SortedPivot(cfg, le, dim, s, mid - from);
      return true;
    }
  }

  lemma Replaced(was: seq<Point>, now: seq<Point>, s: seq<Point>, from: nat, mid: nat, to: nat)
    requires from <= mid <= to <= |was| && |s| == to - from && now == was[..from] + s + was[to..]
    requires multiset(s) == multiset(was[from..to])
    ensures Around(was, now, from, to) && now[from..to] == s
    ensures now[from..mid] == s[..mid - from] && now[mid..to] == s[mid - from..]
  {
    assert now[from..to] == s && now[..from] == was[..from] && now[to..] == was[to..];
    assert now[from..mid] == now[from..to][..mid - from] && now[mid..to] == now[from..to][mid - from..];
  }

  lemma SortedPivot(cfg: Config, le: Order, dim: nat, s: seq<Point>, k: nat)
    requires cfg.Valid() && dim < cfg.numDims && k < |s| && IsKeyOrder(cfg, le) && AllPacked(cfg, s)
             && SortedBy(le, dim, s)
    ensures dim * cfg.bytesPerDim + cfg.bytesPerDim <= |s[k].packed|
    ensures IsPivot(cfg, le, dim, s[..k], s[k..], Dim(s[k].packed, dim, cfg.bytesPerDim))
  {
    DimFits(dim, cfg.numDims, cfg.bytesPerDim);
    assert s[k] in s && KeyLe(cfg, dim, s[k], s[k]);
    assert PartitionedAt(le, dim, s[..k], s[k], s[k..]) && s[k..][0] == s[k];
  }

  /** A leaf is written in the order in which its points stand: the sorter of SortByDim tells
      a length of from - to + 1, which is never positive, so nothing is sorted. */
  method WriteLeafV1(cfg: Config, node: nat, leaves: nat, reader: MutablePoints, from: nat, to: nat,
                     out: IndexOutput, ghost splits: array<Byte>, fps: array<nat>, ghost le: Order)
    requires cfg.Valid() && leaves <= node < 2 * leaves
    requires fps.Length == leaves && splits.Length == leaves * (1 + cfg.bytesPerDim)
    requires from < to <= |reader.points| && to - from <= cfg.maxPointsInLeafNode
    requires AllPacked(cfg, reader.points[from..to]) && cfg.numDims > 1
    modifies out, fps
    ensures BuildStep(cfg, le, node, reader.points[from..to], old(Snapshot(cfg, leaves, out, splits, fps)),
                      Snapshot(cfg, leaves, out, splits, fps), true, reader.points[from..to])
  {
    hide Block;
    fps[node - leaves] := out.GetFilePointer();
    WriteLeafBlock(out, reader.points[from..to]);
    assert Under(node, leaves + (node - leaves));
  }

  /** The work of an inner node before it recurses: choose the dimension, partition,
      record dimension and value. */
  method SplitRange(cfg: Config, node: nat, leaves: nat, reader: MutablePoints, from: nat, to: nat, mid: nat,
                    min: seq<Byte>, max: seq<Byte>, ghost out: IndexOutput, splits: array<Byte>, ghost fps: array<nat>,
                    ghost le: Order)
    returns (r: Option<Split>)
    requires cfg.Valid() && 1 <= node < leaves && splits.Length == leaves * (1 + cfg.bytesPerDim)
    requires from <= mid && from < to <= |reader.points| && AllPacked(cfg, reader.points[from..to])
             && IsKeyOrder(cfg, le)
    requires IsBound(cfg, min) && IsBound(cfg, max)
    modifies reader, splits
    ensures |reader.points| == |old(reader.points)|
    ensures r.None? ==> mid >= to && reader.points == old(reader.points)
                        && Snapshot(cfg, leaves, out, splits, fps) == old(Snapshot(cfg, leaves, out, splits, fps))
    ensures r.Some? ==>
              && mid < to && Around(old(reader.points), reader.points, from, to)
              && AllPacked(cfg, reader.points[from..mid]) && AllPacked(cfg, reader.points[mid..to])
              && r.value.dim < cfg.numIndexDims && |r.value.value| == cfg.bytesPerDim
              && IsPivot(cfg, le, r.value.dim, reader.points[from..mid], reader.points[mid..to], r.value.value)
              && var s := old(Snapshot(cfg, leaves, out, splits, fps));
                 node < |s.splits|
                 && Snapshot(cfg, leaves, out, splits, fps) == s.(splits := s.splits[node := r.value])
    ensures r.Some? && AllInCell(cfg, old(reader.points[from..to]), min, max) ==> Widest(cfg, min, max, r.value.dim)
  {
    if AllInCell(cfg, reader.points[from..to], min, max) {
      ProperCell(cfg, reader.points[from..to], min, max);
    }
    hide IsKeyOrder, IsPivot, AllPacked, Around, Splits, AllInCell, Widest;
    ghost var file := out.data;
    var splitDim := ChooseSplitDim(cfg, min, max);
    var ok := reader.Partition(cfg, from, to, mid, splitDim, le);
    if !ok {
      return None;
    }
    var value := Dim(reader.points[mid].packed, splitDim, cfg.bytesPerDim);
    BkdWriter.WriteSplit(cfg, splits, leaves, node, splitDim, value);
    return Some(Split(splitDim, value));
  }

  lemma LeafHalves(leaves: nat, node: nat, n: nat, max: nat)
    requires 1 <= node < leaves && n >= 2 && LeafSizes(leaves, node, n, 0, max)
    ensures LeafSizes(leaves, 2 * node, Half(n), 0, max) && LeafSizes(leaves, 2 * node + 1, n - Half(n), 0, max)
  {
  }

  /** buildV1: false stands for the panic of an empty half. */
  method BuildV1(cfg: Config, node: nat, leaves: nat, reader: MutablePoints, from: nat, to: nat, out: IndexOutput,
                 min: seq<Byte>, max: seq<Byte>, splits: array<Byte>, fps: array<nat>, ghost le: Order)
    returns (ok: bool)
    requires cfg.Valid() && cfg.numDims > 1 && 1 <= node < 2 * leaves
    requires fps.Length == leaves && splits.Length == leaves * (1 + cfg.bytesPerDim)
    requires from < to <= |reader.points| && AllPacked(cfg, reader.points[from..to]) && IsKeyOrder(cfg, le)
    requires IsBound(cfg, min) && IsBound(cfg, max)
    requires LeafSizes(leaves, node, to - from, 0, cfg.maxPointsInLeafNode)
    modifies reader, out, splits, fps
    ensures |reader.points| == |old(reader.points)| && Around(old(reader.points), reader.points, from, to)
    ensures BuildStep(cfg, le, node, old(reader.points[from..to]), old(Snapshot(cfg, leaves, out, splits, fps)),
                      Snapshot(cfg, leaves, out, splits, fps), ok, reader.points[from..to])
    ensures BuiltWidest(cfg, old(reader.points[from..to]), node, min, max, Snapshot(cfg, leaves, out, splits, fps), ok)
    decreases Measure(leaves, node), 1
  {
    ghost var was, s := reader.points, Snapshot(cfg, leaves, out, splits, fps);
    assert |s.fps| == |s.splits| == leaves;
    hide IsKeyOrder, BuildStep, IsPivot, AllPacked, SetDim, Splits, Around, Snapshot, LeafSizes, Half, AllInCell,
      Widest;
    if node >= leaves {
      LeafFits(leaves, node, to - from, cfg.maxPointsInLeafNode);
      Unmoved(was, from, to);
      WriteLeafV1(cfg, node, leaves, reader, from, to, out, splits, fps, le);
      assert |Snapshot(cfg, leaves, out, splits, fps).fps| == leaves;
      LeafWidest(cfg, was[from..to], node, min, max, Snapshot(cfg, leaves, out, splits, fps));
      return true;
    }
    var mid := (from + to + 1) / 2;
    Middle(from, to);
    var r := SplitRange(cfg, node, leaves, reader, from, to, mid, min, max, out, splits, fps, le);
    if r.None? {
      NothingBuilt(cfg, le, node, was, from, to, s);
      return false;
    }
    ok := BuildHalvesV1(cfg, node, leaves, reader, from, mid, to, out, min, max, splits, fps, r.value, was, s, le);
  }

  /** The two halves of a range that is partitioned around its middle. */
  method BuildHalvesV1(cfg: Config, node: nat, leaves: nat, reader: MutablePoints, from: nat, mid: nat, to: nat,
                       out: IndexOutput, min: seq<Byte>, max: seq<Byte>, splits: array<Byte>, fps: array<nat>,
                       split: Split, ghost was: seq<Point>, ghost s: Image, ghost le: Order)
    returns (ok: bool)
    requires cfg.Valid() && cfg.numDims > 1 && 1 <= node < leaves
    requires fps.Length == leaves && splits.Length == leaves * (1 + cfg.bytesPerDim)
    requires from < mid < to <= |reader.points| && mid - from == Half(to - from) && IsKeyOrder(cfg, le)
    requires AllPacked(cfg, reader.points[from..mid]) && AllPacked(cfg, reader.points[mid..to])
    requires IsBound(cfg, min) && IsBound(cfg, max)
    requires LeafSizes(leaves, node, to - from, 0, cfg.maxPointsInLeafNode)
    requires split.dim < cfg.numIndexDims && |split.value| == cfg.bytesPerDim && Around(was, reader.points, from, to)
    requires IsPivot(cfg, le, split.dim, reader.points[from..mid], reader.points[mid..to], split.value)
    requires AllInCell(cfg, was[from..to], min, max) ==> Widest(cfg, min, max, split.dim)
    requires |s.fps| == |s.splits| == leaves
             && Snapshot(cfg, leaves, out, splits, fps) == s.(splits := s.splits[node := split])
    modifies reader, out, splits, fps
    ensures |reader.points| == |old(reader.points)| && Around(was, reader.points, from, to)
    ensures BuildStep(cfg, le, node, was[from..to], s, Snapshot(cfg, leaves, out, splits, fps), ok,
                      reader.points[from..to])
    ensures BuiltWidest(cfg, was[from..to], node, min, max, Snapshot(cfg, leaves, out, splits, fps), ok)
    decreases Measure(leaves, node), 0
  {
    hide IsKeyOrder, BuildStep, IsPivot, AllPacked, Splits, Around, Snapshot, LeafSizes, Half, AllInCell, Widest,
      SplitsWidest, Cut, CutBounds;
    ghost var parted := reader.points;
    LeafHalves(leaves, node, to - from, cfg.maxPointsInLeafNode);
    var (minSplit, maxSplit) := CutBounds(cfg, min, max, split);
    ok := BuildV1(cfg, 2 * node, leaves, reader, from, mid, out, min, maxSplit, splits, fps, le);
    ghost var t, first := Snapshot(cfg, leaves, out, splits, fps), reader.points;
    AfterLeft(cfg, le, node, was, parted, first, from, mid, to, split, s, t, ok);
    if !ok {
      return;
    }
    assert reader.points[mid..to] == parted[mid..to];
    ok := BuildV1(cfg, 2 * node + 1, leaves, reader, mid, to, out, minSplit, max, splits, fps, le);
    ghost var u := Snapshot(cfg, leaves, out, splits, fps);
    AfterRight(cfg, le, node, was, parted, first, reader.points, from, mid, to, split, s, t, u, ok);
    AroundParts(was, parted, from, mid, to);
    BothWidest(cfg, le, node, was[from..to], parted[from..mid], parted[mid..to], split, s, t, u,
               first[from..mid], reader.points[mid..to], ok, min, max);
  }

  lemma LeafWidest(cfg: Config, points: seq<Point>, node: nat, min: seq<Byte>, max: seq<Byte>, t: Image)
    requires 1 <= |t.fps| <= node
    ensures BuiltWidest(cfg, points, node, min, max, t, true)
  {
  }

  lemma LeafFits(leaves: nat, node: nat, n: nat, max: nat)
    requires 1 <= leaves <= node && LeafSizes(leaves, node, n, 0, max)
    ensures n <= max
  {
  }

  /** The left half is built, or could not be. */
  lemma AfterLeft(cfg: Config, le: Order, node: nat, was: seq<Point>, parted: seq<Point>, first: seq<Point>,
                  from: nat, mid: nat, to: nat, split: Split, s: Image, t: Image, ok: bool)
    requires 1 <= node < |s.fps| == |s.splits| && from < mid < to && mid - from == Half(to - from)
    requires Around(was, parted, from, to) && Around(parted, first, from, mid)
    requires BuildStep(cfg, le, 2 * node, parted[from..mid], s.(splits := s.splits[node := split]), t, ok,
                       first[from..mid])
    ensures Around(was, first, from, to) && first[mid..to] == parted[mid..to]
    ensures !ok ==> BuildStep(cfg, le, node, was[from..to], s, t, false, first[from..to])
  {
    hide BuildStep;
    AroundLeft(parted, first, from, mid, to);
    AroundTwice(was, parted, first, from, to);
    if !ok {
      LeftFailed(cfg, le, node, was[from..to], parted[from..mid], split, s, t, first[from..mid], first[from..to]);
    }
  }

  lemma AfterRight(cfg: Config, le: Order, node: nat, was: seq<Point>, parted: seq<Point>, first: seq<Point>,
                   second: seq<Point>, from: nat, mid: nat, to: nat, split: Split, s: Image, t: Image, u: Image,
                   ok: bool)
    requires cfg.Valid() && IsKeyOrder(cfg, le) && split.dim < cfg.numIndexDims
    requires 1 <= node < |s.fps| == |s.splits| && from < mid < to && mid - from == Half(to - from)
    requires Around(was, parted, from, to) && Around(parted, first, from, mid) && Around(first, second, mid, to)
    requires IsPivot(cfg, le, split.dim, parted[from..mid], parted[mid..to], split.value)
    requires BuildStep(cfg, le, 2 * node, parted[from..mid], s.(splits := s.splits[node := split]), t, true,
                       first[from..mid])
    requires first[mid..to] == parted[mid..to]
    requires BuildStep(cfg, le, 2 * node + 1, first[mid..to], t, u, ok, second[mid..to])
    ensures Around(was, second, from, to)
    ensures BuildStep(cfg, le, node, was[from..to], s, u, ok, second[from..to])
  {
    hide BuildStep, IsPivot, IsKeyOrder;
    AroundLeft(parted, first, from, mid, to);
    AroundRight(first, second, from, mid, to);
    AroundTwice(was, parted, first, from, to);
    AroundTwice(was, first, second, from, to);
    AroundParts(was, parted, from, mid, to);
    AroundParts(was, second, from, mid, to);
    BothHalves(cfg, le, node, was[from..to], parted[from..mid], parted[mid..to], split, s, t, u,
               first[from..mid], second[mid..to], ok);
  }

  lemma Middle(from: nat, to: nat)
    requires from < to
    ensures var mid := (from + to + 1) / 2; from < mid <= to && mid - from == Half(to - from)
    ensures (from + to + 1) / 2 < to <==> to - from >= 2
  {
  }

  lemma AroundParts(was: seq<Point>, s: seq<Point>, from: nat, mid: nat, to: nat)
    requires Around(was, s, from, to) && from <= mid <= to
    ensures |s| == |was| && to <= |s| && s[from..to] == s[from..mid] + s[mid..to]
    ensures multiset(s[from..mid] + s[mid..to]) == multiset(was[from..to])
  {
    assert s[from..to] == s[from..mid] + s[mid..to];
  }

  lemma NothingBuilt(cfg: Config, le: Order, node: nat, was: seq<Point>, from: nat, to: nat, s: Image)
    requires 1 <= node < |s.fps| && from < to <= |was| && to - from < 2
    ensures BuildStep(cfg, le, node, was[from..to], s, s, false, was[from..to]) && Around(was, was, from, to)
  {
  }

  lemma LeftFailed(cfg: Config, le: Order, node: nat, points: seq<Point>, left: seq<Point>, split: Split,
                   s: Image, t: Image, lpts: seq<Point>, pts: seq<Point>)
    requires 1 <= node < |s.fps| == |s.splits| && |points| >= 2 && |left| == Half(|points|)
    requires BuildStep(cfg, le, 2 * node, left, s.(splits := s.splits[node := split]), t, false, lpts)
    ensures BuildStep(cfg, le, node, points, s, t, false, pts)
  {
    FirstHalf(cfg, le, node, points, left, split, s, t, lpts);
  }

  // The bounds

  /** The first value makes both bounds, whatever bytes they begin with: the least
      bound of all ones, the greatest of all zeros. */
  lemma {:induction false} ExtremeVal(n: nat)
    ensures Val(seq(n, _ => 255)) == Pow(256, n) - 1 && Val(seq(n, _ => 0)) == 0
  {
    if n > 0 {
      var ones, zeros: seq<Byte> := seq(n, _ => 255), seq(n, _ => 0);
      ExtremeVal(n - 1);
      ValHead(ones);
      ValHead(zeros);
      assert ones[1..] == seq(n - 1, _ => 255) && zeros[1..] == seq(n - 1, _ => 0);
      assert Pow(256, n) == 256 * Pow(256, n - 1);
    }
  }

  lemma ExtremeDim(cfg: Config, packed: seq<Byte>, dim: nat)
    requires cfg.Valid() && IsPacked(cfg, packed) && dim < cfg.numIndexDims
    ensures dim * cfg.bytesPerDim + cfg.bytesPerDim <= cfg.PackedIndexBytesLength() <= cfg.PackedBytesLength()
    ensures var n, w := cfg.PackedIndexBytesLength(), cfg.bytesPerDim;
            && Val(LeastOf(Dim(seq(n, _ => 255), dim, w), Dim(packed, dim, w))) == Val(Dim(packed, dim, w))
            && Val(MostOf(Dim(seq(n, _ => 0), dim, w), Dim(packed, dim, w))) == Val(Dim(packed, dim, w))
  {
    DimInside(cfg, dim);
    var n, w := cfg.PackedIndexBytesLength(), cfg.bytesPerDim;
    var ones, zeros, v: seq<Byte> := seq(w, _ => 255), seq(w, _ => 0), Dim(packed, dim, w);
    assert Dim(seq(n, _ => 255), dim, w) == ones && Dim(seq(n, _ => 0), dim, w) == zeros;
    ExtremeVal(w);
    ValBound(v);
    LexIsNumeric(ones, v);
    LexIsNumeric(v, zeros);
  }

  lemma ExtremesTight(cfg: Config, p: Point)
    requires cfg.Valid() && IsPacked(cfg, p.packed)
    ensures var n := cfg.PackedIndexBytesLength();
            TightBounds(cfg, LeastUpTo(cfg, seq(n, _ => 255), p.packed, cfg.numIndexDims),
                        MostUpTo(cfg, seq(n, _ => 0), p.packed, cfg.numIndexDims), [p])
  {
    var n := cfg.PackedIndexBytesLength();
    var min0: seq<Byte>, max0: seq<Byte> := seq(n, _ => 255), seq(n, _ => 0);
    var min, max := LeastUpTo(cfg, min0, p.packed, cfg.numIndexDims), MostUpTo(cfg, max0, p.packed, cfg.numIndexDims);
    forall dim: nat | dim < cfg.numIndexDims
      ensures Between(cfg, p.packed, min, max, dim) && Attained(cfg, min, [p], dim) && Attained(cfg, max, [p], dim)
    {
      LeastUpToDim(cfg, min0, p.packed, cfg.numIndexDims, dim);
      MostUpToDim(cfg, max0, p.packed, cfg.numIndexDims, dim);
      ExtremeDim(cfg, p.packed, dim);
      assert p in [p] && CoordOf(cfg, p, dim) == Coord(cfg, min, dim) == Coord(cfg, max, dim);
    }
  }

  /** The loop over the points in writeFieldNDims. */
  method ComputeBounds(cfg: Config, points: seq<Point>, min: array<Byte>, max: array<Byte>)
    requires cfg.Valid() && points != [] && AllPacked(cfg, points) && min != max
    requires min.Length == max.Length == cfg.PackedIndexBytesLength()
    modifies min, max
    ensures TightBounds(cfg, min[..], max[..], points)
  {
    hide TightBounds, LeastUpTo, MostUpTo;
    SetAll(min, 255);
    SetAll(max, 0);
    assert points[0] in points;
    ExtremesTight(cfg, points[0]);
    WidenDims(cfg, points[0].packed, min, max);
    assert points[..1] == [points[0]];
    var i := 1;
    while i < |points|
      invariant 1 <= i <= |points| && TightBounds(cfg, min[..], max[..], points[..i])
    {
      assert points[i] in points;
      WidenBounds(cfg, points[i].packed, min, max, points[..i], points[i]);
      assert points[..i + 1] == points[..i] + [points[i]];
      i := i + 1;
    }
    assert points[..i] == points;
  }

  method SetAll(a: array<Byte>, b: Byte)
    modifies a
    ensures a[..] == seq(a.Length, _ => b)
  {
    for i := 0 to a.Length
      invariant forall k | 0 <= k < i :: a[k] == b
    {
      a[i] := b;
    }
  }

  // The field

  /** The length of the bit set of seen documents once the number of documents has been
      set in it, which is what the index gives as its document count. */
  function SeenCount(maxDoc: nat, docCount: nat): nat {
    if maxDoc <= docCount then docCount + 1 else maxDoc
  }

  /** When the count of documents comes out right. */
  ghost predicate CountRight(maxDoc: nat, docs: set<int>) {
    if |docs - {0}| < maxDoc then |docs| == maxDoc else 0 in docs
  }

  /** When the number of documents is the announced one without document 0, as the point
      view has it, the written count is right exactly when the documents reach the number
      of documents there are, or, with too few of those, when document 0 has a point. */
  lemma SeenCountExactIff(maxDoc: nat, pts: seq<Point>)
    ensures var docs := DocsOf(pts);
            SeenCount(maxDoc, |docs - {0}|) == |docs| <==> CountRight(maxDoc, docs)
    ensures pts != [] && (forall p <- pts :: p.docID < maxDoc) ==>
              (SeenCount(maxDoc, |DocsOf(pts) - {0}|) == |DocsOf(pts)| <==>
               forall d | 0 <= d < maxDoc :: d in DocsOf(pts))
  {
    var docs := DocsOf(pts);
    if 0 in docs {
      assert |docs| == |docs - {0}| + 1;
    } else {
      assert docs - {0} == docs;
    }
    if pts != [] && forall p <- pts :: p.docID < maxDoc {
      assert pts[0].docID < maxDoc;
      FullIff(docs, maxDoc);
    }
  }

  /** With one point for document 3 of 10, the index says 10. */
  lemma SeenCountNotExact(packed: seq<Byte>)
    ensures var docs := DocsOf([Point(packed, 3)]); |docs| == 1 && SeenCount(10, |docs - {0}|) == 10
  {
    assert [Point(packed, 3)][0] in [Point(packed, 3)];
    assert DocsOf([Point(packed, 3)]) == {3} && {3} - {0} == {3};
  }

  method BuildNodesV1(cfg: Config, reader: MutablePoints, leaves: nat, min: seq<Byte>, max: seq<Byte>, docCount: nat,
                      out: IndexOutput, ghost le: Order)
    returns (r: Option<Index>)
    requires cfg.Valid() && reader.points != [] && AllPacked(cfg, reader.points) && IsKeyOrder(cfg, le)
    requires leaves == NumLeaves(|reader.points|, cfg.maxPointsInLeafNode) && cfg.numDims > 1
    requires IsBound(cfg, min) && IsBound(cfg, max)
    modifies reader, out
    ensures old(out.data) <= out.data
    ensures r.Some? <==> cfg.maxPointsInLeafNode >= 2 || |old(reader.points)| == leaves
    ensures r.Some? ==> TreeOf(cfg, le, old(reader.points), out.data, r.value, reader.points)
                        && r.value.min == min && r.value.max == max && r.value.docCount == docCount
  {
    hide IsKeyOrder, Built, BuildStep, TreeOf, LeafSizes, Splittable, Around;
    ghost var was := reader.points;
    var n := |reader.points|;
    LeavesAreEven(n, cfg.maxPointsInLeafNode);
    DimFits(0, leaves, 1 + cfg.bytesPerDim);
    var splitPackedValues := new Byte[leaves * (1 + cfg.bytesPerDim)](_ => 0);
    var leafBlockFPs := new nat[leaves](_ => 0);
    ghost var s := Snapshot(cfg, leaves, out, splitPackedValues, leafBlockFPs);
    assert was[0..n] == was;
    var ok := BuildV1(cfg, 1, leaves, reader, 0, n, out, min, max, splitPackedValues, leafBlockFPs, le);
    AroundAll(was, reader.points);
    ghost var t := Snapshot(cfg, leaves, out, splitPackedValues, leafBlockFPs);
    StepTells(cfg, le, was, s, t, ok, reader.points);
    if !ok {
      return None;
    }
    var index := Index(cfg, min, max, n, docCount, leafBlockFPs[..], Splits(cfg, splitPackedValues[..], leaves));
    TreeBuilt(cfg, le, was, s, t, index, reader.points);
    return Some(index);
  }

  lemma AroundAll(was: seq<Point>, s: seq<Point>)
    requires Around(was, s, 0, |was|)
    ensures |s| == |was| && s[0..|was|] == s
  {
  }

  method BuildTreeV1(cfg: Config, reader: MutablePoints, leaves: nat, min: seq<Byte>, max: seq<Byte>, docCount: nat,
                     out: IndexOutput, ghost le: Order)
    returns (r: Option<nat>, ghost ix: Index)
    requires cfg.Valid() && reader.points != [] && AllPacked(cfg, reader.points) && IsKeyOrder(cfg, le)
    requires leaves == NumLeaves(|reader.points|, cfg.maxPointsInLeafNode) && cfg.numDims > 1
    requires IsBound(cfg, min) && IsBound(cfg, max)
    modifies reader, out
    ensures old(out.data) <= out.data
    ensures r.Some? <==> cfg.maxPointsInLeafNode >= 2 || |old(reader.points)| == leaves
    ensures r.Some? ==> Written(cfg, le, old(reader.points), min, max, out.data, r.value, ix, reader.points)
                        && ix.docCount == docCount
  {
    hide IsKeyOrder, TreeOf;
    ghost var was := reader.points;
    var index := BuildNodesV1(cfg, reader, leaves, min, max, docCount, out, le);
    if index.None? {
      return None, Index(cfg, [], [], 0, 0, [], []);
    }
    ix := index.value;
    ghost var file := out.data;
    r := Some(out.GetFilePointer());
    WriteIndex(out, index.value);
    GrownTree(cfg, le, was, file, out.data, ix, reader.points);
  }

  /** writeFieldNDims: as Finish, but from points in memory, which it rearranges. */
  method WriteFieldNDims(w: BKDWriter, values: MutablePoints, docCount: nat, out: IndexOutput, ghost le: Order)
    returns (r: Option<nat>, ghost ix: Index)
    requires w.Valid() && w.cfg.numIndexDims > 1 && AllPacked(w.cfg, values.points) && IsKeyOrder(w.cfg, le)
    modifies w`finished, w`pointCount, w`docsSeen, w.minPackedValue, w.maxPackedValue, values, out
    ensures old(out.data) <= out.data
    ensures r.Some? <==> w.points == [] && CanFinish(w.cfg, |old(values.points)|, old(w.finished))
    ensures r.Some? ==>
              && TightBounds(w.cfg, w.minPackedValue[..], w.maxPackedValue[..], old(values.points))
              && Written(w.cfg, le, old(values.points), w.minPackedValue[..], w.maxPackedValue[..],
                         out.data, r.value, ix, values.points)
              && ix.docCount == SeenCount(w.maxDoc, docCount)
              && (docCount == |DocsOf(old(values.points)) - {0}| ==>
                    (ix.docCount == |DocsOf(old(values.points))| <==> CountRight(w.maxDoc, DocsOf(old(values.points)))))
  {
    hide IsKeyOrder, Written, TightBounds, CountRight, SeenCount, SeenLength, DocsOf;
    SeenCountExactIff(w.maxDoc, values.points);
    ix := Index(w.cfg, [], [], 0, 0, [], []);
    if w.pointCount != 0 || w.finished {
      return None, ix;
    }
    w.finished := true;
    w.pointCount := |values.points|;
    var numLeaves := CountLeaves(w.pointCount, w.cfg.maxPointsInLeafNode);
    if (1 + w.cfg.bytesPerDim) * numLeaves > MAX_INT32 || w.pointCount == 0 {
      return None, ix;
    }
    ComputeBounds(w.cfg, values.points, w.minPackedValue, w.maxPackedValue);
    w.docsSeen := SeenCount(w.maxDoc, docCount);
    r, ix := BuildTreeV1(w.cfg, values, numLeaves, w.minPackedValue[..], w.maxPackedValue[..], w.docsSeen, out, le);
  }

  /** End to end: a field written from points in memory answers every sound visitor with
      exactly the documents of the matching points, and tells a document count that is right
      exactly when CountRight says so. */
  method WriteFieldAndIntersect(cfg: Config, maxDoc: nat, docCount: nat, points: seq<Point>, out: IndexOutput,
                                query: Query, ghost le: Order) returns (hits: Option<seq<int>>, count: int)
    requires cfg.Valid() && cfg.numIndexDims > 1 && AllPacked(cfg, points) && IsKeyOrder(cfg, le)
    modifies out
    ensures !CanFinish(cfg, |points|, false) ==> hits.None?
    ensures CanFinish(cfg, |points|, false) && Fits64(cfg, maxDoc, points, out.data) && Fits(docCount + 1, 64)
            && Sound(cfg, query) ==>
              hits.Some? && multiset(hits.value) == multiset(Matching(query, points))
    ensures CanFinish(cfg, |points|, false) && Fits64(cfg, maxDoc, points, out.data) && Fits(docCount + 1, 64)
            && docCount == |DocsOf(points) - {0}| ==>
              (count == |DocsOf(points)| <==> CountRight(maxDoc, DocsOf(points)))
  {
    hide IsKeyOrder, TightBounds, Written, CountRight;
    var w := new BKDWriter(maxDoc, cfg, |points|);
    var values := new MutablePoints(points);
    var fp;
    ghost var ix;
    fp, ix := WriteFieldNDims(w, values, docCount, out, le);
    if fp.None? {
      return None, 0;
    }
    ghost var min, max := w.minPackedValue[..], w.maxPackedValue[..];
    ghost var fits := Fits64(cfg, maxDoc, points, out.data) && Fits(docCount + 1, 64);
    if fits {
      LeavesBound(cfg, |points|);
      LeavesCounted(cfg, le, points, min, max, out.data, fp.value, ix, values.points);
      WrittenIsReadable(cfg, le, maxDoc, points, min, max, out.data, fp.value, ix, values.points);
    }
    hits, count := ReadAndIntersect(cfg, points, out.data, fp.value, query, le, min, max, ix, values.points, fits);
  }
}
