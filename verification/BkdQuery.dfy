/** What a visitor sees of a tree, and why pruning by cells loses nothing. */
module BkdQuery {
  import opened Bytes
  import opened BkdLayout
  import opened BkdSelect
  import opened BkdTree
  import opened BkdCells
  import opened BkdIndex

  datatype Relation = OutsideQuery | InsideQuery | CrossesQuery

  /** A visitor's two decisions: how a cell relates to the query, and whether a
      value matches it. */
  datatype Query = Query(compare: (seq<Byte>, seq<Byte>) -> Relation, matches: seq<Byte> -> bool)

  function Relate(q: Query, min: seq<Byte>, max: seq<Byte>): Relation {
    q.compare(min, max)
  }

  predicate Matches(q: Query, value: seq<Byte>) {
    q.matches(value)
  }

  /** What a visitor must promise: a cell outside holds no match, a cell inside
      holds nothing else. */
  ghost predicate Sound(cfg: Config, q: Query) {
    forall p: seq<Byte>, min: seq<Byte>, max: seq<Byte> | InCell(cfg, p, min, max) ::
      && (Relate(q, min, max) == OutsideQuery ==> !Matches(q, p))
      && (Relate(q, min, max) == InsideQuery ==> Matches(q, p))
  }

  /** A call to Visit, or a call to VisitLeaf. */
  datatype Event = Accepted(docID: int) | Offered(docID: int, value: seq<Byte>)

  /** The documents a visitor keeps: what it must accept blindly, and what it
      accepts on sight of the value. */
  function Hits(q: Query, events: seq<Event>): seq<int> {
    if events == [] then []
    else Hits(q, events[..|events| - 1]) + Hit(q, events[|events| - 1])
  }

  function Hit(q: Query, e: Event): seq<int> {
    if e.Accepted? || Matches(q, e.value) then [e.docID] else []
  }

  /** The plain scan: the documents of the matching points, in order. */
  function Matching(q: Query, pts: seq<Point>): seq<int> {
    if pts == [] then []
    else Matching(q, pts[..|pts| - 1]) + (if Matches(q, pts[|pts| - 1].packed) then [pts[|pts| - 1].docID] else [])
  }

  function AcceptAll(pts: seq<Point>): seq<Event> {
    seq(|pts|, k requires 0 <= k < |pts| => Accepted(pts[k].docID))
  }

  function OfferAll(pts: seq<Point>): seq<Event> {
    seq(|pts|, k requires 0 <= k < |pts| => Offered(pts[k].docID, pts[k].packed))
  }

  /** The calls a visitor gets when a tree over `pts` is intersected from `node`
      down: nothing from a cell outside, everything unseen from a cell inside,
      values to look at from the leaves of the others. */
  function Visits(cfg: Config, splits: seq<Split>, leaves: nat, q: Query, node: nat,
                  min: seq<Byte>, max: seq<Byte>, pts: seq<Point>): seq<Event>
    requires node >= 1 && leaves <= |splits|
    decreases Measure(leaves, node)
  {
    match Relate(q, min, max)
    case OutsideQuery => []
    case InsideQuery => AcceptAll(pts)
    case CrossesQuery =>
      if node >= leaves then OfferAll(pts)
      else
        var m := Half(|pts|);
        if m > |pts| then []
        else
          Visits(cfg, splits, leaves, q, 2 * node, min, Cut(cfg, max, splits[node]), pts[..m]) +
          Visits(cfg, splits, leaves, q, 2 * node + 1, Cut(cfg, min, splits[node]), max, pts[m..])
  }

  lemma {:induction false} HitsConcat(q: Query, a: seq<Event>, b: seq<Event>)
    ensures Hits(q, a + b) == Hits(q, a) + Hits(q, b)
  {
    if b == [] {
      assert a + b == a;
    } else {
      hide Hits, Hit;
      var init, last := b[..|b| - 1], b[|b| - 1];
      var before := a + init;
      assert b == init + [last] && a + b == before + [last];
      HitsConcat(q, a, init);
      HitsNext(q, init, last);
      HitsNext(q, before, last);
      Associate(Hits(q, a), Hits(q, init), Hit(q, last));
    }
  }

  lemma HitsNext(q: Query, events: seq<Event>, e: Event)
    ensures Hits(q, events + [e]) == Hits(q, events) + Hit(q, e)
  {
    assert (events + [e])[..|events|] == events;
  }

  lemma {:induction false} MatchingConcat(q: Query, a: seq<Point>, b: seq<Point>)
    ensures Matching(q, a + b) == Matching(q, a) + Matching(q, b)
  {
    if b == [] {
      assert a + b == a;
    } else {
      var n := |b| - 1;
      MatchingConcat(q, a, b[..n]);
      assert (a + b)[..|a + b| - 1] == a + b[..n];
    }
  }

  /** Taking every point blindly is right when every point matches. */
  lemma {:induction false} HitsOfAcceptAll(q: Query, pts: seq<Point>)
    requires forall p <- pts :: Matches(q, p.packed)
    ensures Hits(q, AcceptAll(pts)) == Matching(q, pts)
  {
    if pts != [] {
      var n := |pts| - 1;
      HitsOfAcceptAll(q, pts[..n]);
      assert AcceptAll(pts)[..n] == AcceptAll(pts[..n]);
    }
  }

  lemma {:induction false} HitsOfOfferAll(q: Query, pts: seq<Point>)
    ensures Hits(q, OfferAll(pts)) == Matching(q, pts)
  {
    if pts != [] {
      var n := |pts| - 1;
      HitsOfOfferAll(q, pts[..n]);
      assert OfferAll(pts)[..n] == OfferAll(pts[..n]);
    }
  }

  lemma {:induction false} NothingMatches(q: Query, pts: seq<Point>)
    requires forall p <- pts :: !Matches(q, p.packed)
    ensures Matching(q, pts) == [] == Hits(q, [])
  {
    if pts != [] {
      NothingMatches(q, pts[..|pts| - 1]);
    }
  }

  /** No cell under `node` is misjudged. */
  ghost predicate Judged(cfg: Config, splits: seq<Split>, leaves: nat, q: Query, node: nat,
                         min: seq<Byte>, max: seq<Byte>, pts: seq<Point>)
    requires node >= 1 && leaves <= |splits|
    decreases Measure(leaves, node)
  {
    RightRelation(q, Relate(q, min, max), pts) &&
    match PlaceOf(leaves, node)
    case Leaf(_) => true
    case Beyond => true
    case Inner =>
      var m := Half(|pts|);
      && m <= |pts|
      && Judged(cfg, splits, leaves, q, 2 * node, min, Cut(cfg, max, splits[node]), pts[..m])
      && Judged(cfg, splits, leaves, q, 2 * node + 1, Cut(cfg, min, splits[node]), max, pts[m..])
  }

  ghost predicate RightRelation(q: Query, r: Relation, pts: seq<Point>) {
    match r
    case OutsideQuery => forall p <- pts :: !Matches(q, p.packed)
    case InsideQuery => forall p <- pts :: Matches(q, p.packed)
    case CrossesQuery => true
  }

  lemma SoundCell(cfg: Config, q: Query, min: seq<Byte>, max: seq<Byte>, pts: seq<Point>)
    requires Sound(cfg, q) && AllInCell(cfg, pts, min, max)
    ensures RightRelation(q, Relate(q, min, max), pts)
  {
    forall p <- pts
      ensures Relate(q, min, max) == OutsideQuery ==> !Matches(q, p.packed)
      ensures Relate(q, min, max) == InsideQuery ==> Matches(q, p.packed)
    {
      assert InCell(cfg, p.packed, min, max);
    }
  }

  lemma BuiltHalves(cfg: Config, file: string, fps: seq<nat>, splits: seq<Split>, node: nat, pts: seq<Point>)
    requires node >= 1 && Built(cfg, file, fps, splits, node, pts) && node < |fps|
    ensures node < |splits| && Half(|pts|) <= |pts|
    ensures Sides(cfg, splits[node], pts[..Half(|pts|)], pts[Half(|pts|)..])
    ensures Built(cfg, file, fps, splits, 2 * node, pts[..Half(|pts|)])
    ensures Built(cfg, file, fps, splits, 2 * node + 1, pts[Half(|pts|)..])
  {
  }

  /** Every point lies in the cells the reader cuts on its way down, so a sound
      visitor misjudges none of them. */
  lemma {:induction false} SoundIsJudged(cfg: Config, file: string, fps: seq<nat>, splits: seq<Split>, q: Query,
                                         node: nat, min: seq<Byte>, max: seq<Byte>, pts: seq<Point>)
    requires node >= 1 && |fps| == |splits| && Built(cfg, file, fps, splits, node, pts)
    requires AllInCell(cfg, pts, min, max) && Sound(cfg, q)
    ensures Judged(cfg, splits, |fps|, q, node, min, max, pts)
    decreases Measure(|fps|, node)
  {
    hide Built, Sides, AllInCell, Sound, Cut;
    SoundCell(cfg, q, min, max, pts);
    if node < |fps| {
      BuiltHalves(cfg, file, fps, splits, node, pts);
      var left, right := pts[..Half(|pts|)], pts[Half(|pts|)..];
      PartsInCell(cfg, pts, Half(|pts|), min, max);
      HalvesInCells(cfg, splits[node], min, max, left, right);
      SoundIsJudged(cfg, file, fps, splits, q, 2 * node, min, Cut(cfg, max, splits[node]), left);
      SoundIsJudged(cfg, file, fps, splits, q, 2 * node + 1, Cut(cfg, min, splits[node]), max, right);
    }
  }

  /** Where no cell is misjudged, a visitor keeps exactly what a scan keeps. */
  lemma {:induction false} JudgedIsExact(cfg: Config, splits: seq<Split>, leaves: nat, q: Query,
                                         node: nat, min: seq<Byte>, max: seq<Byte>, pts: seq<Point>)
    requires node >= 1 && leaves <= |splits| && Judged(cfg, splits, leaves, q, node, min, max, pts)
    ensures Hits(q, Visits(cfg, splits, leaves, q, node, min, max, pts)) == Matching(q, pts)
    decreases Measure(leaves, node)
  {
    hide Hits, Matching;
    match Relate(q, min, max)
    case OutsideQuery => NothingMatches(q, pts);
    case InsideQuery => HitsOfAcceptAll(q, pts);
    case CrossesQuery =>
      if node >= leaves {
        HitsOfOfferAll(q, pts);
      } else {
        var m := Half(|pts|);
        var min', max' := Cut(cfg, min, splits[node]), Cut(cfg, max, splits[node]);
        JudgedIsExact(cfg, splits, leaves, q, 2 * node, min, max', pts[..m]);
        JudgedIsExact(cfg, splits, leaves, q, 2 * node + 1, min', max, pts[m..]);
        HitsConcat(q, Visits(cfg, splits, leaves, q, 2 * node, min, max', pts[..m]),
                   Visits(cfg, splits, leaves, q, 2 * node + 1, min', max, pts[m..]));
        MatchingConcat(q, pts[..m], pts[m..]);
        assert pts[..m] + pts[m..] == pts;
      }
  }

  /** Pruning is exact: a visitor whose Compare is sound keeps exactly the
      documents a plain scan keeps, with the same multiplicities, in the order of
      the leaves. */
  lemma PruningIsExact(cfg: Config, file: string, fps: seq<nat>, splits: seq<Split>, q: Query,
                       node: nat, min: seq<Byte>, max: seq<Byte>, pts: seq<Point>)
    requires node >= 1 && |fps| == |splits| && Built(cfg, file, fps, splits, node, pts)
    requires AllInCell(cfg, pts, min, max) && Sound(cfg, q)
    ensures Hits(q, Visits(cfg, splits, |fps|, q, node, min, max, pts)) == Matching(q, pts)
  {
    SoundIsJudged(cfg, file, fps, splits, q, node, min, max, pts);
    JudgedIsExact(cfg, splits, |fps|, q, node, min, max, pts);
  }

  // The scan does not depend on the order of the points

  lemma MatchingRemove(q: Query, pts: seq<Point>, i: nat)
    requires i < |pts|
    ensures multiset(Matching(q, pts)) ==
            multiset(Matching(q, Without(pts, i))) + multiset(Matching(q, [pts[i]]))
  {
    assert pts == pts[..i] + [pts[i]] + pts[i + 1..];
    MatchingConcat(q, pts[..i] + [pts[i]], pts[i + 1..]);
    MatchingConcat(q, pts[..i], [pts[i]]);
    MatchingConcat(q, pts[..i], pts[i + 1..]);
  }

  function Without<T>(s: seq<T>, i: nat): seq<T>
    requires i < |s|
  {
    s[..i] + s[i + 1..]
  }

  lemma RemoveOne<T>(s: seq<T>, i: nat)
    requires i < |s|
    ensures multiset(s) == multiset(Without(s, i)) + multiset{s[i]}
  {
    assert s == s[..i] + [s[i]] + s[i + 1..];
  }

  lemma CancelOne<T>(a: multiset<T>, b: multiset<T>, x: T)
    requires a + multiset{x} == b + multiset{x}
    ensures a == b
  {
    assert a == a + multiset{x} - multiset{x};
    assert b == b + multiset{x} - multiset{x};
  }

  lemma {:induction false} MatchingPermuted(q: Query, a: seq<Point>, b: seq<Point>)
    requires multiset(a) == multiset(b)
    ensures multiset(Matching(q, a)) == multiset(Matching(q, b))
    decreases |a|
  {
    SameElements(a, b);
    if a != [] {
      assert a[0] in b;
      var i :| 0 <= i < |b| && b[i] == a[0];
      RemoveOne(a, 0);
      RemoveOne(b, i);
      MatchingRemove(q, a, 0);
      MatchingRemove(q, b, i);
      CancelOne(multiset(Without(a, 0)), multiset(Without(b, i)), a[0]);
      MatchingPermuted(q, Without(a, 0), Without(b, i));
    }
  }

  // One dimension: values come in ascending order, ties by document

  /** The points offered, in the order in which they are offered. */
  function OfferedPoints(cfg: Config, splits: seq<Split>, leaves: nat, q: Query, node: nat,
                         min: seq<Byte>, max: seq<Byte>, pts: seq<Point>): seq<Point>
    requires node >= 1 && leaves <= |splits|
    decreases Measure(leaves, node)
  {
    if !Relate(q, min, max).CrossesQuery? then []
    else if node >= leaves then pts
    else
      var m := Half(|pts|);
      if m > |pts| then []
      else
        OfferedPoints(cfg, splits, leaves, q, 2 * node, min, Cut(cfg, max, splits[node]), pts[..m]) +
        OfferedPoints(cfg, splits, leaves, q, 2 * node + 1, Cut(cfg, min, splits[node]), max, pts[m..])
  }

  /** The calls to VisitLeaf among the events. */
  function Offers(events: seq<Event>): seq<Event> {
    if events == [] then []
    else Offers(events[..|events| - 1]) + (if events[|events| - 1].Offered? then [events[|events| - 1]] else [])
  }

  lemma {:induction false} OffersConcat(a: seq<Event>, b: seq<Event>)
    ensures Offers(a + b) == Offers(a) + Offers(b)
  {
    if b == [] {
      assert a + b == a;
    } else {
      var n := |b| - 1;
      OffersConcat(a, b[..n]);
      assert (a + b)[..|a + b| - 1] == a + b[..n];
    }
  }

  lemma {:induction false} OffersOfAll(pts: seq<Point>)
    ensures Offers(OfferAll(pts)) == OfferAll(pts)
    ensures Offers(AcceptAll(pts)) == [] == Offers([]) && OfferAll([]) == []
  {
    if pts != [] {
      var n := |pts| - 1;
      OffersOfAll(pts[..n]);
      assert AcceptAll(pts)[..n] == AcceptAll(pts[..n]);
      assert OfferAll(pts)[..n] == OfferAll(pts[..n]);
    }
  }

  lemma {:induction false} OffersAreOffered(cfg: Config, splits: seq<Split>, leaves: nat, q: Query, node: nat,
                                            min: seq<Byte>, max: seq<Byte>, pts: seq<Point>)
    requires node >= 1 && leaves <= |splits|
    ensures Offers(Visits(cfg, splits, leaves, q, node, min, max, pts)) ==
            OfferAll(OfferedPoints(cfg, splits, leaves, q, node, min, max, pts))
    decreases Measure(leaves, node)
  {
    hide Offers, Cut, OfferAll, AcceptAll;
    OffersOfAll(pts);
    if Relate(q, min, max).CrossesQuery? && node < leaves && Half(|pts|) <= |pts| {
      var m := Half(|pts|);
      var min', max' := Cut(cfg, min, splits[node]), Cut(cfg, max, splits[node]);
      OffersAreOffered(cfg, splits, leaves, q, 2 * node, min, max', pts[..m]);
      OffersAreOffered(cfg, splits, leaves, q, 2 * node + 1, min', max, pts[m..]);
      OffersConcat(Visits(cfg, splits, leaves, q, 2 * node, min, max', pts[..m]),
                   Visits(cfg, splits, leaves, q, 2 * node + 1, min', max, pts[m..]));
      OfferAllConcat(OfferedPoints(cfg, splits, leaves, q, 2 * node, min, max', pts[..m]),
                     OfferedPoints(cfg, splits, leaves, q, 2 * node + 1, min', max, pts[m..]));
    }
  }

  lemma OfferAllConcat(a: seq<Point>, b: seq<Point>)
    ensures OfferAll(a + b) == OfferAll(a) + OfferAll(b)
  {
  }

  lemma {:induction false} OfferedInOrder(cfg: Config, splits: seq<Split>, leaves: nat, q: Query, node: nat,
                                          min: seq<Byte>, max: seq<Byte>, pts: seq<Point>, le: Order)
    requires node >= 1 && leaves <= |splits| && SortedBy(le, 0, pts)
    ensures forall p :: p in OfferedPoints(cfg, splits, leaves, q, node, min, max, pts) ==> p in pts
    ensures SortedBy(le, 0, OfferedPoints(cfg, splits, leaves, q, node, min, max, pts))
    decreases Measure(leaves, node)
  {
    if Relate(q, min, max).CrossesQuery? && node < leaves && Half(|pts|) <= |pts| {
      var m := Half(|pts|);
      var min', max' := Cut(cfg, min, splits[node]), Cut(cfg, max, splits[node]);
      OfferedInOrder(cfg, splits, leaves, q, 2 * node, min, max', pts[..m], le);
      OfferedInOrder(cfg, splits, leaves, q, 2 * node + 1, min', max, pts[m..], le);
      var left := OfferedPoints(cfg, splits, leaves, q, 2 * node, min, max', pts[..m]);
      var right := OfferedPoints(cfg, splits, leaves, q, 2 * node + 1, min', max, pts[m..]);
      SortedApart(le, pts, m);
      SortedHalves(le, 0, left, right);
    }
  }

  lemma SortedApart(le: Order, pts: seq<Point>, m: nat)
    requires SortedBy(le, 0, pts) && m <= |pts|
    ensures AllComes(le, 0, pts[..m], pts[m..])
  {
    forall p, q | p in pts[..m] && q in pts[m..] ensures Comes(le, 0, p, q) {
      var i :| 0 <= i < m && pts[i] == p;
      var j :| m <= j < |pts| && pts[j] == q;
    }
  }

  // The estimate

  /** estimatePointCount: a full leaf for every leaf the query may touch. */
  function EstimatePointCount(r: BKDReader, q: Query, node: nat, min: seq<Byte>, max: seq<Byte>): nat
    requires node >= 1 && |r.splitPackedValues| == |r.fps| * BytesPerIndexEntry(r.cfg)
    decreases Measure(|r.fps|, node)
  {
    if Relate(q, min, max).OutsideQuery? then 0
    else if node >= |r.fps| then r.cfg.maxPointsInLeafNode
    else
      var split := ReaderSplit(r.cfg, r.splitPackedValues, |r.fps|, node);
      EstimatePointCount(r, q, 2 * node, min, Cut(r.cfg, max, split)) +
      EstimatePointCount(r, q, 2 * node + 1, Cut(r.cfg, min, split), max)
  }

  lemma {:induction false} MatchingAtMost(q: Query, pts: seq<Point>)
    ensures |Matching(q, pts)| <= |pts|
  {
    if pts != [] {
      MatchingAtMost(q, pts[..|pts| - 1]);
    }
  }

  /** The estimate of an inner node, in terms of the splits the writer stored. */
  lemma EstimateNode(r: BKDReader, splits: seq<Split>, q: Query, node: nat, min: seq<Byte>, max: seq<Byte>)
    requires node >= 1 && HoldsSplits(r.cfg, r.splitPackedValues, splits) && |r.fps| == |splits|
    requires !Relate(q, min, max).OutsideQuery?
    ensures EstimatePointCount(r, q, node, min, max) ==
            if node >= |splits| then r.cfg.maxPointsInLeafNode
            else EstimatePointCount(r, q, 2 * node, min, Cut(r.cfg, max, splits[node])) +
                 EstimatePointCount(r, q, 2 * node + 1, Cut(r.cfg, min, splits[node]), max)
  {
  }

  lemma {:induction false} JudgedEstimate(r: BKDReader, splits: seq<Split>, q: Query, node: nat,
                                          min: seq<Byte>, max: seq<Byte>, pts: seq<Point>)
    requires node >= 1 && HoldsSplits(r.cfg, r.splitPackedValues, splits) && |r.fps| == |splits|
    requires Judged(r.cfg, splits, |splits|, q, node, min, max, pts)
    requires SmallLeaves(r.cfg.maxPointsInLeafNode, |splits|, node, |pts|)
    ensures |Matching(q, pts)| <= EstimatePointCount(r, q, node, min, max)
    decreases Measure(|splits|, node)
  {
    hide Matching, EstimatePointCount, ReaderSplit, Cut;
    MatchingAtMost(q, pts);
    if Relate(q, min, max).OutsideQuery? {
      NothingMatches(q, pts);
      return;
    }
    EstimateNode(r, splits, q, node, min, max);
    if node < |splits| {
      var m := Half(|pts|);
      var min', max' := Cut(r.cfg, min, splits[node]), Cut(r.cfg, max, splits[node]);
      JudgedEstimate(r, splits, q, 2 * node, min, max', pts[..m]);
      JudgedEstimate(r, splits, q, 2 * node + 1, min', max, pts[m..]);
      MatchingConcat(q, pts[..m], pts[m..]);
      assert pts[..m] + pts[m..] == pts;
    }
  }

  /** No leaf under `node` holds more than `max` of the n points there. */
  ghost predicate SmallLeaves(max: nat, leaves: nat, node: nat, n: nat)
    requires node >= 1
    decreases Measure(leaves, node)
  {
    if node >= leaves then n <= max
    else
      && Half(n) <= n && SmallLeaves(max, leaves, 2 * node, Half(n))
      && SmallLeaves(max, leaves, 2 * node + 1, n - Half(n))
  }

  lemma {:induction false} BuiltSmallLeaves(cfg: Config, file: string, fps: seq<nat>, splits: seq<Split>,
                                            node: nat, pts: seq<Point>)
    requires node >= 1 && Built(cfg, file, fps, splits, node, pts)
    ensures SmallLeaves(cfg.maxPointsInLeafNode, |fps|, node, |pts|)
    decreases Measure(|fps|, node)
  {
    hide Sides, Built;
    if node >= |fps| {
      BuiltLeafSmall(cfg, file, fps, splits, node, pts);
    } else {
      BuiltHalves(cfg, file, fps, splits, node, pts);
      BuiltSmallLeaves(cfg, file, fps, splits, 2 * node, pts[..Half(|pts|)]);
      BuiltSmallLeaves(cfg, file, fps, splits, 2 * node + 1, pts[Half(|pts|)..]);
    }
  }

  lemma BuiltLeafSmall(cfg: Config, file: string, fps: seq<nat>, splits: seq<Split>, node: nat, pts: seq<Point>)
    requires node >= 1 && Built(cfg, file, fps, splits, node, pts) && node >= |fps|
    ensures |pts| <= cfg.maxPointsInLeafNode
  {
  }

  /** The estimate is never below the number of points a sound visitor keeps. */
  lemma EstimateIsEnough(r: BKDReader, ix: Index, file: string, q: Query, node: nat,
                         min: seq<Byte>, max: seq<Byte>, pts: seq<Point>)
    requires node >= 1 && Describes(r, ix) && |ix.fps| == |ix.splits| && Sound(ix.cfg, q)
    requires Built(ix.cfg, file, ix.fps, ix.splits, node, pts) && AllInCell(ix.cfg, pts, min, max)
    ensures |Hits(q, Visits(ix.cfg, ix.splits, |ix.fps|, q, node, min, max, pts))| <=
            EstimatePointCount(r, q, node, min, max)
  {
    PruningIsExact(ix.cfg, file, ix.fps, ix.splits, q, node, min, max, pts);
    SoundIsJudged(ix.cfg, file, ix.fps, ix.splits, q, node, min, max, pts);
    BuiltSmallLeaves(ix.cfg, file, ix.fps, ix.splits, node, pts);
    JudgedEstimate(r, ix.splits, q, node, min, max, pts);
  }
}
