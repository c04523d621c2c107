/** From buffered points to query results: the point values writer
    (core/index/pointvalueswriter.go) flushes into the tree writer
    (codecs/simpletext/bkdwriter.go). */
module BkdFlush {
  import opened Bytes
  import opened Text
  import opened Numerals
  import opened BkdLayout
  import opened BkdSelect
  import opened BkdFinish
  import opened BkdFields
  import opened BkdQuery
  import opened BkdRoundTrip
  import PointValues

  /** The points as the buffer takes them, and back. */
  function Buffered(points: seq<Point>): (r: seq<PointValues.Point>)
    ensures |r| == |points|
    ensures forall i | 0 <= i < |r| :: r[i] == PointValues.Point(points[i].packed, points[i].docID)
  {
    seq(|points|, i requires 0 <= i < |points| => PointValues.Point(points[i].packed, points[i].docID))
  }

  function Unbuffered(points: seq<PointValues.Point>): (r: seq<Point>)
    requires forall i | 0 <= i < |points| :: points[i].docID < 0x8000_0000
    ensures |r| == |points|
  {
    seq(|points|, i requires 0 <= i < |points| => Point(points[i].value, points[i].docID))
  }

  /** Points arrive in the order of their documents. */
  ghost predicate DocsAscend(points: seq<Point>) {
    forall i, j | 0 <= i <= j < |points| :: points[i].docID <= points[j].docID
  }

  lemma {:induction false} SameDocs(points: seq<Point>)
    ensures PointValues.DocsOf(Buffered(points)) == DocsOf(points)
  {
    if points != [] {
      var init, last := points[..|points| - 1], points[|points| - 1];
      SameDocs(init);
      assert Buffered(points)[..|points| - 1] == Buffered(init);
      assert points == init + [last];
      assert DocsOf(points) == DocsOf(init) + {last.docID};
    }
  }

  /** Any points buffered in the order of their documents, flushed, written and read: a
      sound visitor keeps exactly the documents of the matching points, and the document
      count that is read back is right exactly when CountRight says so. */
  method FlushAndIntersect(cfg: Config, maxDoc: nat, points: seq<Point>, out: IndexOutput, query: Query,
                           ghost le: Order)
    returns (hits: Option<seq<int>>, count: int)
    requires cfg.Valid() && cfg.numIndexDims > 1 && AllPacked(cfg, points) && IsKeyOrder(cfg, le)
    requires 0 < cfg.PackedBytesLength() <= PointValues.BlockSize
    modifies out
    ensures !CanFinish(cfg, |points|, false) ==> hits.None?
    ensures CanFinish(cfg, |points|, false) && Fits64(cfg, maxDoc, points, out.data) && Fits(|points| + 1, 64)
            && Sound(cfg, query) && DocsAscend(points) ==>
              hits.Some? && multiset(hits.value) == multiset(Matching(query, points))
    ensures CanFinish(cfg, |points|, false) && Fits64(cfg, maxDoc, points, out.data) && Fits(|points| + 1, 64)
            && DocsAscend(points) ==>
              (count == |DocsOf(points)| <==> CountRight(maxDoc, DocsOf(points)))
  {
    hide IsKeyOrder, CountRight, Sound, DocsOf;
    var flushed, docCount := Flush(cfg, points);
    hits, count := WriteFieldAndIntersect(cfg, maxDoc, docCount, flushed, out, query, le);
  }

  /** Buffering and flushing the points. */
  method Flush(cfg: Config, points: seq<Point>) returns (flushed: seq<Point>, docCount: nat)
    requires AllPacked(cfg, points) && 0 < cfg.PackedBytesLength() <= PointValues.BlockSize
    ensures flushed == points
    ensures DocsAscend(points) ==> docCount == |DocsOf(points) - {0}| && docCount <= |points|
  {
    hide DocsOf, PointValues.DocsOf;
    var buffered := Buffered(points);
    forall i | 0 <= i < |points| ensures |buffered[i].value| == cfg.PackedBytesLength() {
      assert points[i] in points;
    }
    var seen;
    seen, docCount := PointValues.AddAndVisit(cfg.PackedBytesLength(), buffered);
    SameDocs(points);
    FewDocs(points);
    flushed := Unbuffered(seen);
  }

  lemma {:induction false} FewDocs(points: seq<Point>)
    ensures |DocsOf(points) - {0}| <= |DocsOf(points)| <= |points|
  {
    if points != [] {
      var init, last := points[..|points| - 1], points[|points| - 1];
      FewDocs(init);
      assert points == init + [last];
      assert DocsOf(points) == DocsOf(init) + {last.docID};
    }
  }
}
