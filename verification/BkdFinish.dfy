/** The writer object (codecs/simpletext/bkdwriter.go): collecting points with
    their bounds, and finishing the tree. */
module BkdFinish {
  import opened Arithmetic
  import opened Bytes
  import opened Powers
  import opened Text
  import opened BkdLayout
  import opened BkdSelect
  import opened BkdTree
  import opened BkdCells
  import opened BkdIndex
  import opened BkdWriter

  // Bounds

  ghost predicate Attained(cfg: Config, bound: seq<Byte>, pts: seq<Point>, dim: nat)
    requires cfg.Valid() && IsBound(cfg, bound) && AllPacked(cfg, pts) && dim < cfg.numIndexDims
  {
    CoordOk(cfg, bound, dim);
    exists p :: p in pts && CoordOf(cfg, p, dim) == Coord(cfg, bound, dim)
  }

  /** The tightest bounds: every point lies between them, and in every dimension
      some point lies on each. */
  ghost predicate TightBounds(cfg: Config, min: seq<Byte>, max: seq<Byte>, pts: seq<Point>) {
    && cfg.Valid() && IsBound(cfg, min) && IsBound(cfg, max) && AllPacked(cfg, pts)
    && AllInCell(cfg, pts, min, max)
    && forall dim: nat | dim < cfg.numIndexDims :: Attained(cfg, min, pts, dim) && Attained(cfg, max, pts, dim)
  }

  ghost function LeastOf(a: seq<Byte>, b: seq<Byte>): seq<Byte> {
    if LexLe(a, b) then a else b
  }

  ghost function MostOf(a: seq<Byte>, b: seq<Byte>): seq<Byte> {
    if LexLe(b, a) then a else b
  }

  /** The bounds after one more value: dimension by dimension the least and the
      most of old bound and new value. */
  ghost predicate Widened(cfg: Config, min: seq<Byte>, max: seq<Byte>, packed: seq<Byte>,
                          min': seq<Byte>, max': seq<Byte>, dim: nat)
    requires cfg.Valid() && dim < cfg.numIndexDims && IsPacked(cfg, packed)
    requires IsBound(cfg, min) && IsBound(cfg, max) && IsBound(cfg, min') && IsBound(cfg, max')
  {
    DimInside(cfg, dim);
    var w := cfg.bytesPerDim;
    && Dim(min', dim, w) == LeastOf(Dim(min, dim, w), Dim(packed, dim, w))
    && Dim(max', dim, w) == MostOf(Dim(max, dim, w), Dim(packed, dim, w))
  }

  lemma WidenedCoords(cfg: Config, min: seq<Byte>, max: seq<Byte>, packed: seq<Byte>,
                      min': seq<Byte>, max': seq<Byte>, dim: nat)
    requires cfg.Valid() && dim < cfg.numIndexDims && IsPacked(cfg, packed)
    requires IsBound(cfg, min) && IsBound(cfg, max) && IsBound(cfg, min') && IsBound(cfg, max')
    requires Widened(cfg, min, max, packed, min', max', dim)
    ensures dim * cfg.bytesPerDim + cfg.bytesPerDim <= cfg.PackedIndexBytesLength() <= cfg.PackedBytesLength()
    ensures var a, b := Coord(cfg, min, dim), Coord(cfg, packed, dim);
            Coord(cfg, min', dim) == if a <= b then a else b
    ensures var a, b := Coord(cfg, max, dim), Coord(cfg, packed, dim);
            Coord(cfg, max', dim) == if a <= b then b else a
  {
    DimInside(cfg, dim);
    var w := cfg.bytesPerDim;
    LexIsNumeric(Dim(min, dim, w), Dim(packed, dim, w));
    LexIsNumeric(Dim(packed, dim, w), Dim(max, dim, w));
  }

  lemma WidenedTight(cfg: Config, min: seq<Byte>, max: seq<Byte>, pts: seq<Point>, p: Point,
                     min': seq<Byte>, max': seq<Byte>)
    requires TightBounds(cfg, min, max, pts) && IsPacked(cfg, p.packed)
    requires IsBound(cfg, min') && IsBound(cfg, max')
    requires forall dim: nat | dim < cfg.numIndexDims :: Widened(cfg, min, max, p.packed, min', max', dim)
    ensures TightBounds(cfg, min', max', pts + [p])
  {
    var pts' := pts + [p];
    forall q | q in pts' ensures IsPacked(cfg, q.packed) && InCell(cfg, q.packed, min', max') {
      forall dim: nat | dim < cfg.numIndexDims ensures Between(cfg, q.packed, min', max', dim) {
        WidenedCoords(cfg, min, max, p.packed, min', max', dim);
        if q in pts {
          assert Between(cfg, q.packed, min, max, dim);
        }
      }
    }
    forall dim: nat | dim < cfg.numIndexDims
      ensures Attained(cfg, min', pts', dim) && Attained(cfg, max', pts', dim)
    {
      WidenedCoords(cfg, min, max, p.packed, min', max', dim);
      AttainedAfter(cfg, min, min', pts, p, dim);
      AttainedAfter(cfg, max, max', pts, p, dim);
    }
  }

  lemma AttainedAfter(cfg: Config, bound: seq<Byte>, bound': seq<Byte>, pts: seq<Point>, p: Point, dim: nat)
    requires cfg.Valid() && IsBound(cfg, bound) && IsBound(cfg, bound') && AllPacked(cfg, pts)
    requires IsPacked(cfg, p.packed) && dim < cfg.numIndexDims
    requires dim * cfg.bytesPerDim + cfg.bytesPerDim <= cfg.PackedIndexBytesLength() <= cfg.PackedBytesLength()
    requires Attained(cfg, bound, pts, dim)
    requires Coord(cfg, bound', dim) == Coord(cfg, bound, dim) || Coord(cfg, bound', dim) == Coord(cfg, p.packed, dim)
    ensures AllPacked(cfg, pts + [p]) && Attained(cfg, bound', pts + [p], dim)
  {
    var q :| q in pts && CoordOf(cfg, q, dim) == Coord(cfg, bound, dim);
    assert q in pts + [p] && p in pts + [p];
    assert CoordOf(cfg, p, dim) == Coord(cfg, p.packed, dim);
  }

  lemma DimOfPrefix(p: seq<Byte>, n: nat, dim: nat, w: nat)
    requires dim * w + w <= n <= |p|
    ensures Dim(p[..n], dim, w) == Dim(p, dim, w)
  {
  }

  lemma FirstTight(cfg: Config, p: Point)
    requires cfg.Valid() && IsPacked(cfg, p.packed)
    ensures cfg.PackedIndexBytesLength() <= cfg.PackedBytesLength()
    ensures var bound := p.packed[..cfg.PackedIndexBytesLength()]; TightBounds(cfg, bound, bound, [p])
  {
    DataFits(cfg);
    var bound := p.packed[..cfg.PackedIndexBytesLength()];
    forall dim: nat | dim < cfg.numIndexDims
      ensures Between(cfg, p.packed, bound, bound, dim) && Attained(cfg, bound, [p], dim)
    {
      DimInside(cfg, dim);
      DimOfPrefix(p.packed, cfg.PackedIndexBytesLength(), dim, cfg.bytesPerDim);
      assert p in [p] && CoordOf(cfg, p, dim) == Coord(cfg, bound, dim);
    }
  }

  // The number of leaves

  /** How often the point count is halved before a leaf can hold it. */
  function Levels(n: nat, max: nat): nat
    requires max >= 1
    decreases n
  {
    if n <= max then 0 else 1 + Levels(Half(n), max)
  }

  function NumLeaves(n: nat, max: nat): nat
    requires max >= 1
  {
    Pow(2, Levels(n, max))
  }

  /** The halving count is the least that brings a leaf down to its maximum. */
  lemma {:induction false} LevelsFit(n: nat, max: nat)
    requires max >= 1
    ensures CeilHalves(n, Levels(n, max)) <= max
    ensures Levels(n, max) > 0 ==> CeilHalves(n, Levels(n, max) - 1) > max
    decreases n
  {
    if n > max {
      LevelsFit(Half(n), max);
    }
  }

  /** Every leaf gets points exactly when a leaf may hold two, or when the count
      is the power of two that the leaves are. */
  lemma EnoughPoints(n: nat, max: nat)
    requires n >= 1 && max >= 1
    ensures n >= NumLeaves(n, max) <==> max >= 2 || n == NumLeaves(n, max)
  {
    var h := Levels(n, max);
    LevelsFit(n, max);
    CeilHalvesBounds(n, h);
    if h > 0 {
      CeilHalvesBounds(n, h - 1);
      Scale(max + 1, CeilHalves(n, h - 1), Pow(2, h - 1));
      Scale(2, max, Pow(2, h - 1));
      assert (max + 1) * Pow(2, h - 1) == max * Pow(2, h - 1) + Pow(2, h - 1);
    }
    if max == 1 {
      Scale(CeilHalves(n, h), 1, Pow(2, h));
    }
  }

  method CountLeaves(n: nat, max: nat) returns (numLeaves: nat)
    requires max >= 1
    ensures numLeaves == NumLeaves(n, max)
  {
    var countPerLeaf := n;
    numLeaves := 1;
    ghost var h := 0;
    while countPerLeaf > max
      invariant 0 <= countPerLeaf && numLeaves == Pow(2, h)
      invariant h + Levels(countPerLeaf, max) == Levels(n, max)
      decreases countPerLeaf
    {
      countPerLeaf := (countPerLeaf + 1) / 2;
      numLeaves := numLeaves * 2;
      h := h + 1;
    }
  }

  lemma RootHeight(h: nat)
    ensures AtHeight(Pow(2, h), 1, h)
  {
    var first: nat := 1;
    assert 1 <= first <= 1 < 2 * first && Pow(2, h) == first * Pow(2, h);
  }

  /** Leaf arithmetic: with the leaf count the writer computes, every leaf gets
      the floor or the ceiling of the average, and never more than it may hold. */
  lemma LeavesAreEven(n: nat, max: nat)
    requires n >= 1 && max >= 1
    ensures var leaves := NumLeaves(n, max);
            && leaves >= 1
            && LeafSizes(leaves, 1, n, FloorDiv(n, leaves), CeilDiv(n, leaves))
            && LeafSizes(leaves, 1, n, 0, max)
            && (Splittable(leaves, 1, n) <==> max >= 2 || n == leaves)
  {
    var h := Levels(n, max);
    var leaves := NumLeaves(n, max);
    PowPositive(2, h);
    RootHeight(h);
    CeilHalvesIsDivision(n, h);
    LevelsFit(n, max);
    LeafSizesAreEven(leaves, 1, h, n, FloorDiv(n, leaves), CeilDiv(n, leaves));
    LeafSizesAreEven(leaves, 1, h, n, 0, max);
    SplittableIff(leaves, 1, h, n);
    EnoughPoints(n, max);
  }

  // The document count

  /** The length of the bit set of seen documents, which is what the index gives
      as its document count. */
  function SeenLength(maxDoc: nat, pts: seq<Point>): nat {
    if pts == [] then maxDoc
    else
      var length := SeenLength(maxDoc, pts[..|pts| - 1]);
      if length <= pts[|pts| - 1].docID then pts[|pts| - 1].docID + 1 else length
  }

  lemma SeenNext(maxDoc: nat, pts: seq<Point>, p: Point)
    ensures SeenLength(maxDoc, pts + [p]) ==
            if SeenLength(maxDoc, pts) <= p.docID then p.docID + 1 else SeenLength(maxDoc, pts)
  {
    assert (pts + [p])[..|pts|] == pts;
  }

  lemma {:induction false} SeenBounds(maxDoc: nat, pts: seq<Point>)
    ensures maxDoc <= SeenLength(maxDoc, pts)
    ensures SeenLength(maxDoc, pts) <= maxDoc || SeenLength(maxDoc, pts) <= 0x8000_0000
    ensures forall p <- pts :: p.docID < SeenLength(maxDoc, pts)
  {
    if pts != [] {
      SeenBounds(maxDoc, pts[..|pts| - 1]);
    }
  }

  /** It is the greater of the announced number and the number behind the greatest
      document. */
  lemma {:induction false} SeenIsGreatest(maxDoc: nat, pts: seq<Point>)
    ensures maxDoc <= SeenLength(maxDoc, pts) && forall p <- pts :: p.docID + 1 <= SeenLength(maxDoc, pts)
    ensures SeenLength(maxDoc, pts) == maxDoc || exists p <- pts :: SeenLength(maxDoc, pts) == p.docID + 1
  {
    if pts != [] {
      var init := pts[..|pts| - 1];
      SeenIsGreatest(maxDoc, init);
      assert forall p <- init :: p in pts;
      assert pts[|pts| - 1] in pts;
    }
  }

  ghost function DocsOf(pts: seq<Point>): set<int> {
    set p | p in pts :: p.docID
  }

  ghost function FirstNumbers(n: nat): (s: set<int>)
    ensures |s| == n && forall d :: d in s <==> 0 <= d < n
  {
    if n == 0 then {} else FirstNumbers(n - 1) + {n - 1}
  }

  /** Numbers below n are n only if they are all. */
  lemma FullIff(docs: set<int>, n: nat)
    requires forall d <- docs :: 0 <= d < n
    ensures |docs| <= n && (|docs| == n <==> forall d | 0 <= d < n :: d in docs)
  {
    var all := FirstNumbers(n);
    assert docs <= all;
    assert docs + (all - docs) == all;
    if docs != all {
      assert all - docs != {};
    }
  }

  /** The recorded document count is never below the number of documents that
      have a point, and it is that number exactly when every announced number and
      every number below some point's document has one. */
  lemma DocCountExactIff(maxDoc: nat, pts: seq<Point>)
    ensures |DocsOf(pts)| <= SeenLength(maxDoc, pts)
    ensures SeenLength(maxDoc, pts) == |DocsOf(pts)| <==>
            && (forall d | 0 <= d < maxDoc :: d in DocsOf(pts))
            && (forall p <- pts, d | 0 <= d < p.docID :: d in DocsOf(pts))
  {
    var length, docs := SeenLength(maxDoc, pts), DocsOf(pts);
    SeenIsGreatest(maxDoc, pts);
    FullIff(docs, length);
    if length != maxDoc {
      var p :| p in pts && length == p.docID + 1;
      assert p.docID in docs;
    }
  }

  /** With 10 documents announced and one of them given a point, the index says 10. */
  lemma DocCountNotExact(packed: seq<Byte>)
    ensures SeenLength(10, [Point(packed, 3)]) == 10 && |DocsOf([Point(packed, 3)])| == 1
  {
    assert [Point(packed, 3)][..0] == [];
    assert [Point(packed, 3)][0] in [Point(packed, 3)];
    assert DocsOf([Point(packed, 3)]) == {3};
  }

  // The writer object

  class BKDWriter {
    const cfg: Config
    const totalPointCount: nat
    const maxDoc: nat
    var points: seq<Point>          // what the point writer holds
    var pointCount: nat
    var minPackedValue: array<Byte>
    var maxPackedValue: array<Byte>
    var docsSeen: nat               // length of the bit set of seen documents
    var finished: bool

    ghost predicate Valid()
      reads this, minPackedValue, maxPackedValue
    {
      && cfg.Valid() && minPackedValue != maxPackedValue
      && minPackedValue.Length == maxPackedValue.Length == cfg.PackedIndexBytesLength()
      && pointCount == |points| <= totalPointCount && AllPacked(cfg, points)
      && docsSeen == SeenLength(maxDoc, points)
      && (points != [] ==> TightBounds(cfg, minPackedValue[..], maxPackedValue[..], points))
    }

    constructor (maxDoc: nat, cfg: Config, totalPointCount: nat)
      requires cfg.Valid()
      ensures Valid() && points == [] && !finished && this.cfg == cfg && this.totalPointCount == totalPointCount
      ensures this.maxDoc == maxDoc && fresh(minPackedValue) && fresh(maxPackedValue)
    {
      this.cfg := cfg;
      this.totalPointCount, this.maxDoc := totalPointCount, maxDoc;
      points, pointCount, docsSeen, finished := [], 0, maxDoc, false;
      minPackedValue := new Byte[cfg.PackedIndexBytesLength()];
      maxPackedValue := new Byte[cfg.PackedIndexBytesLength()];
    }

    /** Add: false for a value of the wrong length and for one value too many. */
    method Add(packedValue: seq<Byte>, docID: DocId) returns (ok: bool)
      requires Valid() && !finished
      modifies this`points, this`pointCount, this`docsSeen, minPackedValue, maxPackedValue
      ensures Valid()
      ensures ok <==> IsPacked(cfg, packedValue) && |old(points)| < totalPointCount
      ensures points == if ok then old(points) + [Point(packedValue, docID)] else old(points)
    {
      if |packedValue| != cfg.PackedBytesLength() || pointCount >= totalPointCount {
        return false;
      }
      ghost var p := Point(packedValue, docID);
      if pointCount == 0 {
        FirstTight(cfg, p);
        CopyWhole(minPackedValue, packedValue[..cfg.PackedIndexBytesLength()]);
        CopyWhole(maxPackedValue, packedValue[..cfg.PackedIndexBytesLength()]);
        assert points + [p] == [p];
      } else {
        WidenBounds(cfg, packedValue, minPackedValue, maxPackedValue, points, p);
      }
      SeenNext(maxDoc, points, Point(packedValue, docID));
      points := points + [Point(packedValue, docID)];
      pointCount := pointCount + 1;
      if docsSeen <= docID {
        docsSeen := docID + 1;
      }
      return true;
    }

    /** Finish: builds the tree, writes its index, tells where the index is. */
    method Finish(out: IndexOutput, ghost le: Order) returns (r: Option<nat>, ghost ix: Index, ghost pts: seq<Point>)
      requires Valid() && IsKeyOrder(cfg, le)
      modifies this`finished, out
      ensures Valid() && old(out.data) <= out.data
      ensures r.Some? <==> CanFinish(cfg, |points|, old(finished))
      ensures r.Some? ==>
                finished && Written(cfg, le, points, minPackedValue[..], maxPackedValue[..], out.data, r.value, ix, pts)
      ensures r.Some? ==> ix.docCount == SeenLength(maxDoc, points)
    {
      ix, pts := Index(cfg, [], [], 0, 0, [], []), [];
      if pointCount == 0 || finished {
        return None, ix, pts;
      }
      finished := true;
      var numLeaves := CountLeaves(pointCount, cfg.maxPointsInLeafNode);
      if (1 + cfg.bytesPerDim) * numLeaves > MAX_INT32 {
        return None, ix, pts;
      }
      r, ix, pts := BuildTree(cfg, points, numLeaves, minPackedValue[..], maxPackedValue[..], docsSeen, out, le);
    }
  }

  /** What a finished tree is: its index stands at `fp`, and the blocks it points
      to hold `pts`, an arrangement of the points added, one-dimensional points in
      ascending order. */
  ghost predicate Written(cfg: Config, le: Order, points: seq<Point>, min: seq<Byte>, max: seq<Byte>,
                          file: string, fp: nat, ix: Index, pts: seq<Point>) {
    && cfg.Valid() && TreeOf(cfg, le, points, file, ix, pts) && ix.min == min && ix.max == max
    && At(file, fp, IndexText(ix))
  }

  /** When a tree can be written at all. */
  predicate CanFinish(cfg: Config, count: nat, finished: bool)
    requires cfg.Valid()
  {
    && count > 0 && !finished
    && (1 + cfg.bytesPerDim) * NumLeaves(count, cfg.maxPointsInLeafNode) <= MAX_INT32
    && (cfg.maxPointsInLeafNode >= 2 || count == NumLeaves(count, cfg.maxPointsInLeafNode))
  }

  lemma BuiltIndex(cfg: Config, le: Order, points: seq<Point>, s: Image, t: Image, ix: Index, pts: seq<Point>)
    requires cfg.Valid() && BuildStep(cfg, le, 1, points, s, t, true, pts)
    requires |s.fps| == |s.splits| >= 1 && s.splits[0].dim == 0 && |s.splits[0].value| == cfg.bytesPerDim
    requires ix.cfg == cfg && ix.fps == t.fps && ix.splits == t.splits
    requires IsBound(cfg, ix.min) && IsBound(cfg, ix.max)
    ensures ix.Valid()
    ensures forall k | 0 <= k < |ix.fps| :: ix.fps[k] <= |t.file|
  {
    assert !Under(1, 0);
    forall k: nat | k < |t.splits|
      ensures t.splits[k].dim < cfg.numIndexDims && |t.splits[k].value| == cfg.bytesPerDim
    {
      if k > 0 {
        UnderRoot(k);
        BuiltEntries(cfg, t.file, t.fps, t.splits, 1, pts, k);
      }
    }
    forall k: nat | k < |t.fps| ensures t.fps[k] <= |t.file| {
      UnderRoot(|t.fps| + k);
      BuiltPositions(cfg, t.file, t.fps, t.splits, 1, pts, |t.fps| + k);
    }
  }

  /** The tree of all points, before its index is written. */
  ghost predicate TreeOf(cfg: Config, le: Order, points: seq<Point>, file: string, ix: Index, pts: seq<Point>) {
    && ix.Valid() && ix.cfg == cfg && ix.pointCount == |points|
    && |ix.fps| == NumLeaves(|points|, cfg.maxPointsInLeafNode)
    && (forall k | 0 <= k < |ix.fps| :: ix.fps[k] <= |file|)
    && multiset(pts) == multiset(points)
    && Built(cfg, file, ix.fps, ix.splits, 1, pts)
    && (cfg.numDims == 1 ==> SortedBy(le, 0, pts))
    && (AllInCell(cfg, points, ix.min, ix.max) ==> SplitsWidest(cfg, ix.splits, |ix.fps|, 1, ix.min, ix.max))
  }

  /** Building the tree of all points and writing its index. */
  method BuildTree(cfg: Config, points: seq<Point>, leaves: nat, min: seq<Byte>, max: seq<Byte>, docCount: nat,
                   out: IndexOutput, ghost le: Order)
    returns (r: Option<nat>, ghost ix: Index, ghost pts: seq<Point>)
    requires cfg.Valid() && points != [] && AllPacked(cfg, points) && IsKeyOrder(cfg, le)
    requires leaves == NumLeaves(|points|, cfg.maxPointsInLeafNode)
    requires IsBound(cfg, min) && IsBound(cfg, max)
    modifies out
    ensures old(out.data) <= out.data
    ensures r.Some? <==> cfg.maxPointsInLeafNode >= 2 || |points| == leaves
    ensures r.Some? ==> Written(cfg, le, points, min, max, out.data, r.value, ix, pts) && ix.docCount == docCount
  {
    var index;
    index, pts := BuildNodes(cfg, points, leaves, min, max, docCount, out, le);
    if index.None? {
      return None, Index(cfg, [], [], 0, 0, [], []), pts;
    }
    ix := index.value;
    ghost var file := out.data;
    r := Some(out.GetFilePointer());
    WriteIndex(out, index.value);
    GrownTree(cfg, le, points, file, out.data, ix, pts);
  }

  lemma StepTells(cfg: Config, le: Order, points: seq<Point>, s: Image, t: Image, ok: bool, pts: seq<Point>)
    requires BuildStep(cfg, le, 1, points, s, t, ok, pts)
    ensures s.file <= t.file && (ok <==> Splittable(|t.fps|, 1, |points|))
  {
  }

  lemma TreeBuilt(cfg: Config, le: Order, points: seq<Point>, s: Image, t: Image, ix: Index, pts: seq<Point>)
    requires cfg.Valid() && BuildStep(cfg, le, 1, points, s, t, true, pts)
    requires |s.fps| == |s.splits| >= 1 && s.splits[0].dim == 0 && |s.splits[0].value| == cfg.bytesPerDim
    requires ix.cfg == cfg && ix.fps == t.fps && ix.splits == t.splits && ix.pointCount == |points|
    requires IsBound(cfg, ix.min) && IsBound(cfg, ix.max) && |ix.fps| == NumLeaves(|points|, cfg.maxPointsInLeafNode)
    requires AllInCell(cfg, points, ix.min, ix.max) ==> SplitsWidest(cfg, ix.splits, |ix.fps|, 1, ix.min, ix.max)
    ensures TreeOf(cfg, le, points, t.file, ix, pts)
  {
    hide Built, SplitsWidest, AllInCell;
    BuiltIndex(cfg, le, points, s, t, ix, pts);
  }

  method BuildNodes(cfg: Config, points: seq<Point>, leaves: nat, min: seq<Byte>, max: seq<Byte>, docCount: nat,
                    out: IndexOutput, ghost le: Order)
    returns (r: Option<Index>, ghost pts: seq<Point>)
    requires cfg.Valid() && points != [] && AllPacked(cfg, points) && IsKeyOrder(cfg, le)
    requires leaves == NumLeaves(|points|, cfg.maxPointsInLeafNode)
    requires IsBound(cfg, min) && IsBound(cfg, max)
    modifies out
    ensures old(out.data) <= out.data
    ensures r.Some? <==> cfg.maxPointsInLeafNode >= 2 || |points| == leaves
    ensures r.Some? ==> TreeOf(cfg, le, points, out.data, r.value, pts) && r.value.min == min && r.value.max == max
    ensures r.Some? ==> r.value.docCount == docCount
  {
    hide IsKeyOrder, Built, BuildStep, TreeOf, LeafSizes, Splittable;
    LeavesAreEven(|points|, cfg.maxPointsInLeafNode);
    DimFits(0, leaves, 1 + cfg.bytesPerDim);
    var splitPackedValues := new Byte[leaves * (1 + cfg.bytesPerDim)](_ => 0);
    var leafBlockFPs := new nat[leaves](_ => 0);
    ghost var s := Snapshot(cfg, leaves, out, splitPackedValues, leafBlockFPs);
    var ok;
    ok, pts := BuildV2(cfg, 1, leaves, points, out, min, max, splitPackedValues, leafBlockFPs, le);
    ghost var t := Snapshot(cfg, leaves, out, splitPackedValues, leafBlockFPs);
    StepTells(cfg, le, points, s, t, ok, pts);
    if !ok {
      return None, pts;
    }
    var index := Index(cfg, min, max, |points|, docCount, leafBlockFPs[..], Splits(cfg, splitPackedValues[..], leaves));
    TreeBuilt(cfg, le, points, s, t, index, pts);
    r := Some(index);
  }

  lemma GrownTree(cfg: Config, le: Order, points: seq<Point>, file: string, file': string, ix: Index, pts: seq<Point>)
    requires TreeOf(cfg, le, points, file, ix, pts) && file <= file'
    ensures TreeOf(cfg, le, points, file', ix, pts)
  {
    BuiltStable(cfg, file, file', ix.fps, ix.fps, ix.splits, ix.splits, 1, pts);
  }

  /** A bound after one dimension of a new value. */
  function LoweredIn(cfg: Config, min: seq<Byte>, packed: seq<Byte>, dim: nat): (r: seq<Byte>)
    requires cfg.Valid() && IsBound(cfg, min) && IsPacked(cfg, packed) && dim < cfg.numIndexDims
    ensures IsBound(cfg, r)
  {
    DimInside(cfg, dim);
    var v := Dim(packed, dim, cfg.bytesPerDim);
    if LexLe(Dim(min, dim, cfg.bytesPerDim), v) then min else SetDim(min, dim, cfg.bytesPerDim, v)
  }

  function RaisedIn(cfg: Config, max: seq<Byte>, packed: seq<Byte>, dim: nat): (r: seq<Byte>)
    requires cfg.Valid() && IsBound(cfg, max) && IsPacked(cfg, packed) && dim < cfg.numIndexDims
    ensures IsBound(cfg, r)
  {
    DimInside(cfg, dim);
    var v := Dim(packed, dim, cfg.bytesPerDim);
    if LexLe(v, Dim(max, dim, cfg.bytesPerDim)) then max else SetDim(max, dim, cfg.bytesPerDim, v)
  }

  /** The bounds after the first k dimensions of a new value. */
  function LeastUpTo(cfg: Config, min: seq<Byte>, packed: seq<Byte>, k: nat): (r: seq<Byte>)
    requires cfg.Valid() && IsBound(cfg, min) && IsPacked(cfg, packed) && k <= cfg.numIndexDims
    ensures IsBound(cfg, r)
  {
    if k == 0 then min else LoweredIn(cfg, LeastUpTo(cfg, min, packed, k - 1), packed, k - 1)
  }

  function MostUpTo(cfg: Config, max: seq<Byte>, packed: seq<Byte>, k: nat): (r: seq<Byte>)
    requires cfg.Valid() && IsBound(cfg, max) && IsPacked(cfg, packed) && k <= cfg.numIndexDims
    ensures IsBound(cfg, r)
  {
    if k == 0 then max else RaisedIn(cfg, MostUpTo(cfg, max, packed, k - 1), packed, k - 1)
  }

  lemma UpToNext(cfg: Config, min: seq<Byte>, max: seq<Byte>, packed: seq<Byte>, k: nat)
    requires cfg.Valid() && IsBound(cfg, min) && IsBound(cfg, max) && IsPacked(cfg, packed) && k < cfg.numIndexDims
    ensures LeastUpTo(cfg, min, packed, k + 1) == LoweredIn(cfg, LeastUpTo(cfg, min, packed, k), packed, k)
    ensures MostUpTo(cfg, max, packed, k + 1) == RaisedIn(cfg, MostUpTo(cfg, max, packed, k), packed, k)
  {
  }

  lemma {:induction false} LeastUpToDim(cfg: Config, min: seq<Byte>, packed: seq<Byte>, k: nat, d: nat)
    requires cfg.Valid() && IsBound(cfg, min) && IsPacked(cfg, packed) && k <= cfg.numIndexDims && d < cfg.numIndexDims
    ensures d * cfg.bytesPerDim + cfg.bytesPerDim <= cfg.PackedIndexBytesLength() <= cfg.PackedBytesLength()
    ensures var w := cfg.bytesPerDim;
            Dim(LeastUpTo(cfg, min, packed, k), d, w) ==
            if d < k then LeastOf(Dim(min, d, w), Dim(packed, d, w)) else Dim(min, d, w)
  {
    DimInside(cfg, d);
    if k > 0 {
      DimInside(cfg, k - 1);
      LeastUpToDim(cfg, min, packed, k - 1, d);
      DimOfSetDim(LeastUpTo(cfg, min, packed, k - 1), k - 1, cfg.numIndexDims, cfg.bytesPerDim,
                  Dim(packed, k - 1, cfg.bytesPerDim), d);
    }
  }

  lemma {:induction false} MostUpToDim(cfg: Config, max: seq<Byte>, packed: seq<Byte>, k: nat, d: nat)
    requires cfg.Valid() && IsBound(cfg, max) && IsPacked(cfg, packed) && k <= cfg.numIndexDims && d < cfg.numIndexDims
    ensures d * cfg.bytesPerDim + cfg.bytesPerDim <= cfg.PackedIndexBytesLength() <= cfg.PackedBytesLength()
    ensures var w := cfg.bytesPerDim;
            Dim(MostUpTo(cfg, max, packed, k), d, w) ==
            if d < k then MostOf(Dim(max, d, w), Dim(packed, d, w)) else Dim(max, d, w)
  {
    DimInside(cfg, d);
    if k > 0 {
      DimInside(cfg, k - 1);
      MostUpToDim(cfg, max, packed, k - 1, d);
      DimOfSetDim(MostUpTo(cfg, max, packed, k - 1), k - 1, cfg.numIndexDims, cfg.bytesPerDim,
                  Dim(packed, k - 1, cfg.bytesPerDim), d);
    }
  }

  lemma AllDimsTight(cfg: Config, min: seq<Byte>, max: seq<Byte>, pts: seq<Point>, p: Point)
    requires TightBounds(cfg, min, max, pts) && IsPacked(cfg, p.packed)
    ensures TightBounds(cfg, LeastUpTo(cfg, min, p.packed, cfg.numIndexDims),
                        MostUpTo(cfg, max, p.packed, cfg.numIndexDims), pts + [p])
  {
    var min' := LeastUpTo(cfg, min, p.packed, cfg.numIndexDims);
    var max' := MostUpTo(cfg, max, p.packed, cfg.numIndexDims);
    forall dim: nat | dim < cfg.numIndexDims ensures Widened(cfg, min, max, p.packed, min', max', dim) {
      LeastUpToDim(cfg, min, p.packed, cfg.numIndexDims, dim);
      MostUpToDim(cfg, max, p.packed, cfg.numIndexDims, dim);
    }
    WidenedTight(cfg, min, max, pts, p, min', max');
  }

  method CopyWhole(dst: array<Byte>, src: seq<Byte>)
    requires dst.Length == |src|
    modifies dst
    ensures dst[..] == src
  {
    CopyInto(dst, 0, src);
  }

  method WidenBounds(cfg: Config, packedValue: seq<Byte>, min: array<Byte>, max: array<Byte>,
                     ghost pts: seq<Point>, ghost p: Point)
    requires cfg.Valid() && IsPacked(cfg, packedValue) && p.packed == packedValue && min != max
    requires min.Length == max.Length == cfg.PackedIndexBytesLength()
    requires TightBounds(cfg, min[..], max[..], pts)
    modifies min, max
    ensures TightBounds(cfg, min[..], max[..], pts + [p])
  {
    AllDimsTight(cfg, min[..], max[..], pts, p);
    WidenDims(cfg, packedValue, min, max);
  }

  /** The loop over the dimensions in Add. */
  method WidenDims(cfg: Config, packedValue: seq<Byte>, min: array<Byte>, max: array<Byte>)
    requires cfg.Valid() && IsPacked(cfg, packedValue) && min != max
    requires min.Length == max.Length == cfg.PackedIndexBytesLength()
    modifies min, max
    ensures min[..] == LeastUpTo(cfg, old(min[..]), packedValue, cfg.numIndexDims)
    ensures max[..] == MostUpTo(cfg, old(max[..]), packedValue, cfg.numIndexDims)
  {
    ghost var min0, max0 := min[..], max[..];
    assert LeastUpTo(cfg, min0, packedValue, 0) == min0 && MostUpTo(cfg, max0, packedValue, 0) == max0;
    hide LeastUpTo, MostUpTo, LoweredIn, RaisedIn;
    var dim := 0;
    while dim < cfg.numIndexDims
      invariant 0 <= dim <= cfg.numIndexDims
      invariant min[..] == LeastUpTo(cfg, old(min[..]), packedValue, dim)
      invariant max[..] == MostUpTo(cfg, old(max[..]), packedValue, dim)
    {
      UpToNext(cfg, min0, max0, packedValue, dim);
      LowerBound(cfg, packedValue, min, dim);
      RaiseBound(cfg, packedValue, max, dim);
      dim := dim + 1;
    }
  }

  method LowerBound(cfg: Config, packedValue: seq<Byte>, min: array<Byte>, dim: nat)
    requires cfg.Valid() && IsPacked(cfg, packedValue) && dim < cfg.numIndexDims && IsBound(cfg, min[..])
    modifies min
    ensures min[..] == LoweredIn(cfg, old(min[..]), packedValue, dim)
  {
    DimInside(cfg, dim);
    var from := dim * cfg.bytesPerDim;
    if !LexLe(min[from..from + cfg.bytesPerDim], packedValue[from..from + cfg.bytesPerDim]) {
      CopyInto(min, from, packedValue[from..from + cfg.bytesPerDim]);
    }
  }

  method RaiseBound(cfg: Config, packedValue: seq<Byte>, max: array<Byte>, dim: nat)
    requires cfg.Valid() && IsPacked(cfg, packedValue) && dim < cfg.numIndexDims && IsBound(cfg, max[..])
    modifies max
    ensures max[..] == RaisedIn(cfg, old(max[..]), packedValue, dim)
  {
    DimInside(cfg, dim);
    var from := dim * cfg.bytesPerDim;
    if !LexLe(packedValue[from..from + cfg.bytesPerDim], max[from..from + cfg.bytesPerDim]) {
      CopyInto(max, from, packedValue[from..from + cfg.bytesPerDim]);
    }
  }
}
