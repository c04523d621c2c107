/** The tree reader (codecs/simpletext/bkdreader.go). */
module BkdReader {
  import opened Bytes
  import opened Text
  import opened Numerals
  import opened BkdLayout
  import opened BkdTree
  import opened BkdCells
  import opened BkdIndex
  import opened BkdQuery

  /** A visitor that keeps documents and remembers how it was called. */
  class Visitor {
    const query: Query
    var hits: seq<int>
    var events: seq<Event>

    ghost predicate Valid()
      reads this
    {
      hits == Hits(query, events)
    }

    constructor (query: Query)
      ensures Valid() && this.query == query && events == []
    {
      this.query := query;
      hits, events := [], [];
    }

    method Visit(docID: int)
      requires Valid()
      modifies this
      ensures Valid() && events == old(events) + [Accepted(docID)]
    {
      HitsNext(query, events, Accepted(docID));
      hits := hits + [docID];
      events := events + [Accepted(docID)];
    }

    method VisitLeaf(docID: int, value: seq<Byte>)
      requires Valid()
      modifies this
      ensures Valid() && events == old(events) + [Offered(docID, value)]
    {
      HitsNext(query, events, Offered(docID, value));
      if query.matches(value) {
        hits := hits + [docID];
      }
      events := events + [Offered(docID, value)];
    }
  }

  // One leaf block

  /** The block of a leaf can be read: it stands there and its numbers fit. */
  ghost predicate LeafReadable(cfg: Config, file: string, fp: nat, pts: seq<Point>) {
    cfg.Valid() && LeafBuilt(cfg, file, fp, pts) && Fits(cfg.maxPointsInLeafNode, 64)
  }

  lemma SmallNumbers(cfg: Config, n: nat, d: DocId)
    requires Fits(cfg.maxPointsInLeafNode, 64)
    ensures n <= cfg.maxPointsInLeafNode ==> Fits(n, 64)
    ensures Fits(d, 64)
  {
    Powers.LargePowers();
  }

  /** The i documents read first, and the position after them. */
  ghost predicate DocsRead(file: string, fp: nat, pts: seq<Point>, pos: nat, i: nat) {
    i <= |pts| && Reading(file, fp, BlockLines(pts), pos, 1 + i)
  }

  method ReadCount(input: IndexInput, cfg: Config, fp: nat, ghost pts: seq<Point>) returns (count: Option<int>)
    modifies input
    ensures LeafReadable(cfg, input.data, fp, pts) ==>
              count == Some(|pts|) && DocsRead(input.data, fp, pts, input.pos, 0)
  {
    if LeafReadable(cfg, input.data, fp, pts) {
      StartReading(input.data, fp, BlockLines(pts));
      SmallNumbers(cfg, |pts|, 0);
    }
    input.Seek(fp);
    count := input.ReadInt(BLOCK_COUNT, fp, BlockLines(pts), 0, |pts|);
  }

  method ReadDocID(input: IndexInput, cfg: Config, ghost fp: nat, ghost pts: seq<Point>, ghost i: nat)
    returns (docID: Option<int>)
    modifies input
    ensures LeafReadable(cfg, input.data, fp, pts) && DocsRead(input.data, fp, pts, old(input.pos), i) && i < |pts| ==>
              docID == Some(pts[i].docID) && DocsRead(input.data, fp, pts, input.pos, i + 1)
  {
    ghost var d: DocId := if i < |pts| then pts[i].docID else 0;
    if LeafReadable(cfg, input.data, fp, pts) {
      SmallNumbers(cfg, 0, d);
    }
    docID := input.ReadInt(BLOCK_DOC_ID, fp, BlockLines(pts), 1 + i, d);
  }

  /** visitDocIDs: false stands for a read error. */
  method VisitDocIDs(input: IndexInput, cfg: Config, fp: nat, visitor: Visitor, ghost pts: seq<Point>)
    returns (ok: bool)
    requires visitor.Valid()
    modifies input, visitor
    ensures visitor.Valid()
    ensures LeafReadable(cfg, input.data, fp, pts) ==> ok && visitor.events == old(visitor.events) + AcceptAll(pts)
  {
    hide LeafReadable, DocsRead, Hits;
    ghost var good := LeafReadable(cfg, input.data, fp, pts);
    var count := ReadCount(input, cfg, fp, pts);
    if count.None? {
      return false;
    }
    var i := 0;
    while i < count.value
      invariant 0 <= i && visitor.Valid()
      invariant good ==> i <= |pts| == count.value && DocsRead(input.data, fp, pts, input.pos, i)
                         && visitor.events == old(visitor.events) + AcceptAll(pts)[..i]
      decreases count.value - i
    {
      var docID := ReadDocID(input, cfg, fp, pts, i);
      if docID.None? {
        return false;
      }
      visitor.Visit(docID.value);
      i := i + 1;
    }
    return true;
  }

  /** All documents and the first i values read. */
  ghost predicate ValuesRead(file: string, fp: nat, pts: seq<Point>, pos: nat, i: nat) {
    i <= |pts| && Reading(file, fp, BlockLines(pts), pos, 1 + |pts| + i)
  }

  /** readDocIDs: fills the scratch array; false stands for a read error and for
      a count the array cannot hold. */
  method ReadDocIDs(input: IndexInput, cfg: Config, fp: nat, docIDs: array<int>, ghost pts: seq<Point>)
    returns (count: Option<nat>)
    requires docIDs.Length == cfg.maxPointsInLeafNode
    modifies input, docIDs
    ensures count.Some? ==> count.value <= docIDs.Length
    ensures LeafReadable(cfg, input.data, fp, pts) ==>
              && count == Some(|pts|) && ValuesRead(input.data, fp, pts, input.pos, 0)
              && HoldsDocs(docIDs[..|pts|], pts)
  {
    ghost var good := LeafReadable(cfg, input.data, fp, pts);
    var c := ReadCount(input, cfg, fp, pts);
    if c.None? || c.value > docIDs.Length {
      return None;
    }
    var idx := 0;
    while idx < c.value
      invariant 0 <= idx <= docIDs.Length
      invariant good ==> DocsRead(input.data, fp, pts, input.pos, idx)
      invariant good ==> forall k | 0 <= k < idx :: docIDs[k] == pts[k].docID
      decreases c.value - idx
    {
      var docID := ReadDocID(input, cfg, fp, pts, idx);
      if docID.None? {
        return None;
      }
      docIDs[idx] := docID.value;
      idx := idx + 1;
    }
    return Some(idx);
  }

  method ReadValue(input: IndexInput, cfg: Config, ghost fp: nat, ghost pts: seq<Point>, ghost i: nat)
    returns (value: Option<seq<Byte>>)
    modifies input
    ensures LeafReadable(cfg, input.data, fp, pts) && ValuesRead(input.data, fp, pts, old(input.pos), i)
            && i < |pts| ==>
              value == Some(pts[i].packed) && ValuesRead(input.data, fp, pts, input.pos, i + 1)
  {
    hide BlockLine, LeafReadable, Reading, At, Print, BytesToString, StringToBytes;
    ghost var p := if i < |pts| then pts[i].packed else [];
    if LeafReadable(cfg, input.data, fp, pts) && i < |pts| {
      BlockValue(cfg, input.data, fp, pts, i);
    }
    value := ReadBytes(input, BLOCK_VALUE, fp, BlockLines(pts), 1 + |pts| + i, p);
    if value.Some? && |value.value| != cfg.PackedBytesLength() {
      return None;
    }
  }

  lemma BlockValue(cfg: Config, file: string, fp: nat, pts: seq<Point>, i: nat)
    requires LeafReadable(cfg, file, fp, pts) && i < |pts|
    ensures BlockLines(pts)[1 + |pts| + i] == BLOCK_VALUE + BytesToString(pts[i].packed)
    ensures |pts[i].packed| == cfg.PackedBytesLength() >= 1
  {
    assert IsPacked(cfg, pts[i].packed);
    PackedInhabited(cfg);
  }

  lemma PackedInhabited(cfg: Config)
    requires cfg.Valid()
    ensures cfg.PackedBytesLength() >= 1 && cfg.PackedIndexBytesLength() >= 1
  {
    DimFits(0, cfg.numDims, cfg.bytesPerDim);
    DimFits(0, cfg.numIndexDims, cfg.bytesPerDim);
  }

  /** visitDocValues: reads on where readDocIDs stopped. */
  method VisitDocValues(input: IndexInput, cfg: Config, docIDs: array<int>, count: nat, visitor: Visitor,
                        ghost fp: nat, ghost pts: seq<Point>, ghost good: bool) returns (ok: bool)
    requires count <= docIDs.Length && visitor.Valid()
    requires good ==> LeafReadable(cfg, input.data, fp, pts) && ValuesRead(input.data, fp, pts, input.pos, 0)
    requires good ==> HoldsDocs(docIDs[..count], pts)
    modifies input, visitor
    ensures visitor.Valid()
    ensures good ==> ok && visitor.events == old(visitor.events) + OfferAll(pts)
  {
    hide LeafReadable, ValuesRead, Hits;
    var idx := 0;
    while idx < count
      invariant 0 <= idx <= count && visitor.Valid()
      invariant good ==> ValuesRead(input.data, fp, pts, input.pos, idx)
      invariant good ==> visitor.events == old(visitor.events) + OfferAll(pts)[..idx]
    {
      var value := ReadValue(input, cfg, fp, pts, idx);
      if value.None? {
        return false;
      }
      visitor.VisitLeaf(docIDs[idx], value.value);
      idx := idx + 1;
    }
    return true;
  }

  ghost predicate HoldsDocs(docIDs: seq<int>, pts: seq<Point>) {
    |docIDs| == |pts| && forall k | 0 <= k < |pts| :: docIDs[k] == pts[k].docID
  }

  /** A crossing leaf: its documents first, then its values. */
  method ScanLeaf(input: IndexInput, cfg: Config, fp: nat, docIDs: array<int>, visitor: Visitor, ghost pts: seq<Point>)
    returns (ok: bool)
    requires docIDs.Length == cfg.maxPointsInLeafNode && visitor.Valid()
    modifies input, docIDs, visitor
    ensures visitor.Valid()
    ensures LeafReadable(cfg, input.data, fp, pts) ==> ok && visitor.events == old(visitor.events) + OfferAll(pts)
  {
    var count := ReadDocIDs(input, cfg, fp, docIDs, pts);
    if count.None? {
      return false;
    }
    ok := VisitDocValues(input, cfg, docIDs, count.value, visitor, fp, pts, LeafReadable(cfg, input.data, fp, pts));
  }

  // The recursion over nodes

  /** The reader describes a tree over `pts` under `node` of its file. */
  ghost predicate Reads(r: BKDReader, file: string, ix: Index, node: nat, pts: seq<Point>)
    requires node >= 1
  {
    && Describes(r, ix) && |ix.fps| == |ix.splits| && Fits(r.cfg.maxPointsInLeafNode, 64)
    && Built(r.cfg, file, r.fps, ix.splits, node, pts)
  }

  lemma ReadsHalves(r: BKDReader, file: string, ix: Index, node: nat, pts: seq<Point>)
    requires node >= 1 && Reads(r, file, ix, node, pts) && node < |r.fps|
    ensures Half(|pts|) <= |pts|
    ensures Reads(r, file, ix, 2 * node, pts[..Half(|pts|)])
    ensures Reads(r, file, ix, 2 * node + 1, pts[Half(|pts|)..])
    ensures ReaderSplit(r.cfg, r.splitPackedValues, |r.fps|, node) == ix.splits[node]
  {
    BuiltHalves(r.cfg, file, r.fps, ix.splits, node, pts);
  }

  lemma ReadsLeaf(r: BKDReader, file: string, ix: Index, node: nat, pts: seq<Point>)
    requires r.Valid() && |r.fps| <= node < 2 * |r.fps| && Reads(r, file, ix, node, pts)
    ensures LeafReadable(r.cfg, file, r.fps[node - |r.fps|], pts)
  {
  }

  lemma VisitsHalves(cfg: Config, splits: seq<Split>, leaves: nat, q: Query, node: nat,
                     min: seq<Byte>, max: seq<Byte>, pts: seq<Point>)
    requires 1 <= node < leaves <= |splits| && Relate(q, min, max) == CrossesQuery && Half(|pts|) <= |pts|
    ensures Visits(cfg, splits, leaves, q, node, min, max, pts) ==
            Visits(cfg, splits, leaves, q, 2 * node, min, Cut(cfg, max, splits[node]), pts[..Half(|pts|)]) +
            Visits(cfg, splits, leaves, q, 2 * node + 1, Cut(cfg, min, splits[node]), max, pts[Half(|pts|)..])
  {
  }

  /** The two halves of an intersect, as the reader cuts its cells. */
  method NextCells(r: BKDReader, node: nat, min: seq<Byte>, max: seq<Byte>)
    returns (minSplit: seq<Byte>, maxSplit: seq<Byte>, ghost split: Split)
    requires r.Valid() && 1 <= node < |r.fps| && IsBound(r.cfg, min) && IsBound(r.cfg, max)
    ensures split == ReaderSplit(r.cfg, r.splitPackedValues, |r.fps|, node)
    ensures IsBound(r.cfg, minSplit) && IsBound(r.cfg, maxSplit)
    ensures minSplit == Cut(r.cfg, min, split) && maxSplit == Cut(r.cfg, max, split)
  {
    var s := ReaderSplit(r.cfg, r.splitPackedValues, |r.fps|, node);
    DimInside(r.cfg, s.dim);
    maxSplit := SetDim(max, s.dim, r.cfg.bytesPerDim, s.value);
    minSplit := SetDim(min, s.dim, r.cfg.bytesPerDim, s.value);
    split := s;
  }

  lemma AcceptHalves(pts: seq<Point>, m: nat)
    requires m <= |pts|
    ensures AcceptAll(pts) == AcceptAll(pts[..m]) + AcceptAll(pts[m..])
  {
  }

  /** addAll */
  method AddAll(r: BKDReader, input: IndexInput, visitor: Visitor, node: nat, ghost ix: Index, ghost pts: seq<Point>,
                ghost good: bool) returns (ok: bool)
    requires r.Valid() && 1 <= node < 2 * |r.fps| && visitor.Valid()
    requires good ==> Reads(r, input.data, ix, node, pts)
    modifies input, visitor
    ensures visitor.Valid()
    ensures good ==> ok && visitor.events == old(visitor.events) + AcceptAll(pts)
    decreases Measure(|r.fps|, node)
  {
    hide Hits, LeafReadable, Built, AcceptAll, ReaderSplit;
    if node >= |r.fps| {
      if good {
        ReadsLeaf(r, input.data, ix, node, pts);
      }
      ok := VisitDocIDs(input, r.cfg, r.fps[node - |r.fps|], visitor, pts);
      return;
    }
    ghost var m := if good then Half(|pts|) else 0;
    if good {
      ReadsHalves(r, input.data, ix, node, pts);
    }
    ok := AddAll(r, input, visitor, 2 * node, ix, pts[..m], good);
    if !ok {
      return;
    }
    ok := AddAll(r, input, visitor, 2 * node + 1, ix, pts[m..], good);
    if good {
      AcceptHalves(pts, m);
    }
  }

  /** intersect */
  method IntersectNode(r: BKDReader, input: IndexInput, docIDs: array<int>, visitor: Visitor, node: nat,
                       min: seq<Byte>, max: seq<Byte>, ghost ix: Index, ghost pts: seq<Point>, ghost good: bool)
    returns (ok: bool)
    requires r.Valid() && 1 <= node < 2 * |r.fps| && visitor.Valid()
    requires docIDs.Length == r.cfg.maxPointsInLeafNode && IsBound(r.cfg, min) && IsBound(r.cfg, max)
    requires good ==> Reads(r, input.data, ix, node, pts)
    modifies input, docIDs, visitor
    ensures visitor.Valid()
    ensures good ==>
              ok && visitor.events == old(visitor.events) +
                                      Visits(r.cfg, ix.splits, |r.fps|, visitor.query, node, min, max, pts)
    decreases Measure(|r.fps|, node)
  {
    hide Hits, LeafReadable, Built, AcceptAll, OfferAll, Cut, ReaderSplit;
    match visitor.query.compare(min, max)
    case OutsideQuery =>
      return true;
    case InsideQuery =>
      ok := AddAll(r, input, visitor, node, ix, pts, good);
    case CrossesQuery =>
      if node >= |r.fps| {
        if good {
          ReadsLeaf(r, input.data, ix, node, pts);
          assert Visits(r.cfg, ix.splits, |r.fps|, visitor.query, node, min, max, pts) == OfferAll(pts);
        }
        ok := ScanLeaf(input, r.cfg, r.fps[node - |r.fps|], docIDs, visitor, pts);
      } else {
        var minSplit, maxSplit;
        ghost var split;
        minSplit, maxSplit, split := NextCells(r, node, min, max);
        ghost var m := if good then Half(|pts|) else 0;
        if good {
          ReadsHalves(r, input.data, ix, node, pts);
          VisitsHalves(r.cfg, ix.splits, |r.fps|, visitor.query, node, min, max, pts);
        }
        ok := IntersectNode(r, input, docIDs, visitor, 2 * node, min, maxSplit, ix, pts[..m], good);
        if !ok {
          return;
        }
        ok := IntersectNode(r, input, docIDs, visitor, 2 * node + 1, minSplit, max, ix, pts[m..], good);
      }
  }

  /** Intersect: on a well written tree and for a sound visitor, the documents of
      exactly the matching points, in leaf order. */
  method Intersect(r: BKDReader, input: IndexInput, visitor: Visitor, ghost ix: Index, ghost pts: seq<Point>)
    returns (ok: bool)
    requires r.Valid() && visitor.Valid()
    modifies input, visitor
    ensures visitor.Valid()
    ensures Reads(r, input.data, ix, 1, pts) ==>
              ok && visitor.events == old(visitor.events) +
                                      Visits(r.cfg, ix.splits, |r.fps|, visitor.query, 1, r.min, r.max, pts)
    ensures Reads(r, input.data, ix, 1, pts) && AllInCell(r.cfg, pts, r.min, r.max) && Sound(r.cfg, visitor.query) ==>
              visitor.hits == old(visitor.hits) + Matching(visitor.query, pts)
  {
    ghost var good := Reads(r, input.data, ix, 1, pts);
    var docIDs := new int[r.cfg.maxPointsInLeafNode];
    ok := IntersectNode(r, input, docIDs, visitor, 1, r.min, r.max, ix, pts, good);
    if good {
      HitsConcat(visitor.query, old(visitor.events),
                 Visits(r.cfg, ix.splits, |r.fps|, visitor.query, 1, r.min, r.max, pts));
      if AllInCell(r.cfg, pts, r.min, r.max) && Sound(r.cfg, visitor.query) {
        PruningIsExact(r.cfg, input.data, r.fps, ix.splits, visitor.query, 1, r.min, r.max, pts);
      }
    }
  }
}
