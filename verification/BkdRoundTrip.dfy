/** From added points to query results: the writer, the index text and the reader
    put together. */
module BkdRoundTrip {
  import opened Bytes
  import opened Text
  import opened Numerals
  import opened Powers
  import opened BkdLayout
  import opened BkdSelect
  import opened BkdTree
  import opened BkdCells
  import opened BkdIndex
  import opened BkdQuery
  import opened BkdFinish
  import opened BkdReader

  /** The numbers a written index holds fit 64 bits. */
  ghost predicate Fits64(cfg: Config, maxDoc: nat, points: seq<Point>, file: string) {
    && Fits(cfg.bytesPerDim, 64) && Fits(cfg.maxPointsInLeafNode, 64)
    && Fits(|points|, 64) && Fits(maxDoc, 64) && Fits(|file|, 64)
  }

  /** What a finished writer left can be read back by initReader. */
  lemma WrittenIsReadable(cfg: Config, le: Order, maxDoc: nat, points: seq<Point>, min: seq<Byte>, max: seq<Byte>,
                          file: string, fp: nat, ix: Index, pts: seq<Point>)
    requires Written(cfg, le, points, min, max, file, fp, ix, pts) && Fits(ix.docCount, 64)
    requires Fits64(cfg, maxDoc, points, file) && |ix.fps| <= 0x7fff_ffff
    ensures Readable(ix)
  {
    LargePowers();
    PackedInhabited(cfg);
  }

  /** The reader of a written index reads the tree the writer built, and every
      point lies in the root cell. */
  lemma WrittenIsRead(cfg: Config, le: Order, points: seq<Point>, min: seq<Byte>, max: seq<Byte>,
                      file: string, fp: nat, ix: Index, pts: seq<Point>, r: BKDReader)
    requires Written(cfg, le, points, min, max, file, fp, ix, pts) && TightBounds(cfg, min, max, points)
    requires Describes(r, ix) && Fits(cfg.maxPointsInLeafNode, 64)
    ensures |ix.fps| >= 1 && r.Valid() && Reads(r, file, ix, 1, pts)
    ensures AllInCell(cfg, pts, r.min, r.max) && r.cfg == cfg
  {
    PowPositive(2, Levels(|points|, cfg.maxPointsInLeafNode));
    SameElements(pts, points);
    forall p <- pts ensures InCell(cfg, p.packed, min, max) {
      assert p in points;
    }
    forall node: nat | 1 <= node < |r.fps|
      ensures ReaderSplit(r.cfg, r.splitPackedValues, |r.fps|, node).dim < r.cfg.numIndexDims
    {
      assert ix.splits[node].dim < cfg.numIndexDims;
    }
  }

  /** In a written index every inner node splits on the first of the widest dimensions of its
      cell, which is that of all points cut at the recorded splits on the way down. */
  lemma SplitsAreWidest(cfg: Config, le: Order, points: seq<Point>, min: seq<Byte>, max: seq<Byte>,
                        file: string, fp: nat, ix: Index, pts: seq<Point>, node: nat)
    requires Written(cfg, le, points, min, max, file, fp, ix, pts) && TightBounds(cfg, min, max, points)
    requires 1 <= node < |ix.fps|
    ensures |ix.fps| <= |ix.splits|
    ensures var (low, high) := CellOf(cfg, ix.splits, node, min, max);
            Widest(cfg, low, high, ix.splits[node].dim)
  {
    hide Built, SplitsWidest, Widest, AllInCell;
    UnderRoot(node);
    WidestAt(cfg, ix.splits, |ix.fps|, 1, node, min, max);
  }

  /** Adding points one by one to a new writer. */
  method AddPoints(cfg: Config, maxDoc: nat, points: seq<Point>) returns (w: BKDWriter)
    requires cfg.Valid() && AllPacked(cfg, points)
    ensures fresh(w) && fresh(w.minPackedValue) && fresh(w.maxPackedValue)
    ensures w.Valid() && !w.finished && w.cfg == cfg && w.maxDoc == maxDoc && w.points == points
  {
    w := new BKDWriter(maxDoc, cfg, |points|);
    var i := 0;
    while i < |points|
      invariant 0 <= i <= |points| && fresh(w) && fresh(w.minPackedValue) && fresh(w.maxPackedValue)
      invariant w.Valid() && !w.finished && w.cfg == cfg && w.maxDoc == maxDoc && w.totalPointCount == |points|
      invariant w.points == points[..i]
    {
      assert points[i] in points;
      var ok := w.Add(points[i].packed, points[i].docID);
      assert points[..i + 1] == points[..i] + [points[i]];
      i := i + 1;
    }
    assert points[..i] == points;
  }

  /** End to end: whatever points are added, and whatever a sound visitor asks, it
      keeps the documents of exactly the matching points, each as often as it
      matches; the tree can be built exactly when CanFinish says so; and the document
      count read back is right exactly when every announced number and every number
      below the document of some point has a point. */
  method BuildAndIntersect(cfg: Config, maxDoc: nat, points: seq<Point>, out: IndexOutput, query: Query,
                           ghost le: Order)
    returns (hits: Option<seq<int>>, docCount: int)
    requires cfg.Valid() && AllPacked(cfg, points) && IsKeyOrder(cfg, le)
    modifies out
    ensures !CanFinish(cfg, |points|, false) ==> hits.None?
    ensures CanFinish(cfg, |points|, false) && Fits64(cfg, maxDoc, points, out.data) && Sound(cfg, query) ==>
              hits.Some? && multiset(hits.value) == multiset(Matching(query, points))
    ensures CanFinish(cfg, |points|, false) && Fits64(cfg, maxDoc, points, out.data) ==>
              (docCount == |DocsOf(points)| <==>
               && (forall d | 0 <= d < maxDoc :: d in DocsOf(points))
               && (forall p <- points, d | 0 <= d < p.docID :: d in DocsOf(points)))
  {
    hide IsKeyOrder, TightBounds, Written, Fits64, SeenLength, DocsOf, Sound;
    DocCountExactIff(maxDoc, points);
    var w := AddPoints(cfg, maxDoc, points);
    var fp;
    ghost var ix, pts;
    fp, ix, pts := w.Finish(out, le);
    if fp.None? {
      return None, 0;
    }
    ghost var min, max, fits := w.minPackedValue[..], w.maxPackedValue[..], Fits64(cfg, maxDoc, points, out.data);
    if fits {
      LeavesBound(cfg, |points|);
      SeenFits(cfg, maxDoc, points, out.data);
      LeavesCounted(cfg, le, points, min, max, out.data, fp.value, ix, pts);
      WrittenIsReadable(cfg, le, maxDoc, points, min, max, out.data, fp.value, ix, pts);
    }
    hits, docCount := ReadAndIntersect(cfg, points, out.data, fp.value, query, le, min, max, ix, pts, fits);
  }

  lemma SeenFits(cfg: Config, maxDoc: nat, points: seq<Point>, file: string)
    requires Fits64(cfg, maxDoc, points, file)
    ensures Fits(SeenLength(maxDoc, points), 64) && Fits(cfg.maxPointsInLeafNode, 64)
  {
    LargePowers();
    SeenBounds(maxDoc, points);
  }

  lemma LeavesCounted(cfg: Config, le: Order, points: seq<Point>, min: seq<Byte>, max: seq<Byte>,
                      file: string, fp: nat, ix: Index, pts: seq<Point>)
    requires Written(cfg, le, points, min, max, file, fp, ix, pts)
    ensures |ix.fps| == NumLeaves(|points|, cfg.maxPointsInLeafNode)
  {
  }

  lemma LeavesBound(cfg: Config, count: nat)
    requires cfg.Valid() && CanFinish(cfg, count, false)
    ensures NumLeaves(count, cfg.maxPointsInLeafNode) <= 0x7fff_ffff
  {
    var n := NumLeaves(count, cfg.maxPointsInLeafNode);
    assert (1 + cfg.bytesPerDim) * n == n + cfg.bytesPerDim * n;
  }

  method ReadAndIntersect(cfg: Config, ghost points: seq<Point>, file: string, fp: nat, query: Query, ghost le: Order,
                          ghost min: seq<Byte>, ghost max: seq<Byte>, ghost ix: Index, ghost pts: seq<Point>,
                          ghost good: bool)
    returns (hits: Option<seq<int>>, docCount: int)
    requires cfg.Valid()
    requires good ==> Written(cfg, le, points, min, max, file, fp, ix, pts) && TightBounds(cfg, min, max, points)
    requires good ==> Readable(ix) && Fits(cfg.maxPointsInLeafNode, 64)
    ensures good && Sound(cfg, query) ==> hits.Some? && multiset(hits.value) == multiset(Matching(query, points))
    ensures good ==> docCount == ix.docCount
  {
    var input := new IndexInput(file);
    var r := InitReader(input, fp, ix);
    if r.None? {
      return None, 0;
    }
    docCount := r.value.docCount;
    if good {
      WrittenIsRead(cfg, le, points, min, max, file, fp, ix, pts, r.value);
      MatchingPermuted(query, pts, points);
    }
    if !r.value.Usable() {
      return None, docCount;
    }
    var visitor := new Visitor(query);
    var ok := Intersect(r.value, input, visitor, ix, pts);
    if !ok {
      return None, docCount;
    }
    return Some(visitor.hits), docCount;
  }

  /** In one dimension the values a visitor is shown come in ascending order, and
      equal values in ascending order of their documents. */
  lemma OneDimensionInOrder(cfg: Config, le: Order, points: seq<Point>, min: seq<Byte>, max: seq<Byte>,
                            file: string, fp: nat, ix: Index, pts: seq<Point>, q: Query, i: nat, j: nat)
    requires Written(cfg, le, points, min, max, file, fp, ix, pts) && IsKeyOrder(cfg, le) && cfg.numDims == 1
    requires i < j < |Offers(Visits(cfg, ix.splits, |ix.fps|, q, 1, min, max, pts))|
    ensures var offers := Offers(Visits(cfg, ix.splits, |ix.fps|, q, 1, min, max, pts));
            && offers[i].Offered? && offers[j].Offered?
            && (Val(offers[i].value) < Val(offers[j].value) ||
                (offers[i].value == offers[j].value && offers[i].docID <= offers[j].docID))
  {
    var shown := OfferedPoints(cfg, ix.splits, |ix.fps|, q, 1, min, max, pts);
    OffersAreOffered(cfg, ix.splits, |ix.fps|, q, 1, min, max, pts);
    OfferedInOrder(cfg, ix.splits, |ix.fps|, q, 1, min, max, pts, le);
    assert Comes(le, 0, shown[i], shown[j]);
    assert KeyLe(cfg, 0, shown[i], shown[j]);
    WholeKey(cfg, shown[i], shown[j]);
  }

  lemma WholeKey(cfg: Config, p: Point, q: Point)
    requires KeyLe(cfg, 0, p, q) && cfg.numDims == 1
    ensures Val(p.packed) < Val(q.packed) || (p.packed == q.packed && p.docID <= q.docID)
  {
    var w := cfg.bytesPerDim;
    assert cfg.PackedIndexBytesLength() == w == |p.packed| == |q.packed|;
    assert Dim(p.packed, 0, w) == p.packed && Dim(q.packed, 0, w) == q.packed;
    assert p.packed[w..] == [] == q.packed[w..];
    if Val(p.packed) == Val(q.packed) {
      ValInjective(p.packed, q.packed);
    }
  }

  lemma {:induction false} ValInjective(a: seq<Byte>, b: seq<Byte>)
    requires |a| == |b| && Val(a) == Val(b)
    ensures a == b
  {
    if a != [] {
      var n := |a| - 1;
      ValInjective(a[..n], b[..n]);
      assert a == a[..n] + [a[n]] && b == b[..n] + [b[n]];
    }
  }
}
