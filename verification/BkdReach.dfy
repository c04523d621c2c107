/** What a query reaches of a tree (codecs/simpletext/bkdreader.go), leaf by leaf: the cells
    on the path from the root decide about a leaf. */
module BkdReach {
  import opened Bytes
  import opened BkdLayout
  import opened BkdSelect
  import opened BkdTree
  import opened BkdCells
  import opened BkdIndex
  import opened BkdQuery

  /** How the cell of a node relates to the query. */
  ghost function CellRelation(cfg: Config, splits: seq<Split>, q: Query, node: nat, min: seq<Byte>, max: seq<Byte>):
    Relation
    requires node >= 1
  {
    var (low, high) := CellOf(cfg, splits, node, min, max);
    Relate(q, low, high)
  }

  // The estimate

  /** No cell on the path from `node` down to the leaf is outside. */
  ghost predicate Reached(cfg: Config, splits: seq<Split>, q: Query, node: nat, leaf: nat,
                          min: seq<Byte>, max: seq<Byte>)
    requires node >= 1
  {
    forall a: nat | Under(node, a) && Under(a, leaf) ::
      a >= 1 && !CellRelation(cfg, splits, q, a, min, max).OutsideQuery?
  }

  ghost function ReachedLeaves(cfg: Config, splits: seq<Split>, leaves: nat, q: Query, node: nat,
                               min: seq<Byte>, max: seq<Byte>): set<nat>
    requires node >= 1
  {
    set leaf: nat | leaves <= leaf < 2 * leaves && Under(node, leaf) && Reached(cfg, splits, q, node, leaf, min, max)
  }

  lemma {:induction false} UnderTwice(a: nat, b: nat, c: nat)
    requires Under(a, b) && Under(b, c)
    ensures Under(a, c) && a <= b <= c
  {
    UnderGrows(a, b);
    UnderGrows(b, c);
    if b != c {
      UnderTwice(a, b, c / 2);
      UnderGrows(a, c / 2);
    }
  }

  lemma {:induction false} UnderGrows(a: nat, b: nat)
    requires Under(a, b)
    ensures a <= b
  {
  }

  /** A leaf below one half is reached from the node exactly when the node's own cell is not
      outside and the leaf is reached from that half. */
  lemma ReachedFromHalf(cfg: Config, splits: seq<Split>, q: Query, node: nat, half: nat, leaf: nat,
                        min: seq<Byte>, max: seq<Byte>)
    requires node >= 1 && (half == 2 * node || half == 2 * node + 1) && Under(half, leaf)
    ensures Under(node, leaf)
    ensures Reached(cfg, splits, q, node, leaf, min, max) <==>
            !CellRelation(cfg, splits, q, node, min, max).OutsideQuery?
            && Reached(cfg, splits, q, half, leaf, min, max)
  {
    hide CellRelation;
    UnderChild(node, half, leaf);
    assert Under(node, node);
    forall a: nat | Under(half, a) && Under(a, leaf) ensures Under(node, a) {
      UnderChild(node, half, a);
    }
    forall a: nat | Under(node, a) && Under(a, leaf) ensures a == node || Under(half, a) {
      if a != node {
        UnderSplit(node, a);
        if !Under(half, a) {
          var other := if half == 2 * node then half + 1 else half - 1;
          UnderTwice(other, a, leaf);
          ChildrenApart(node, leaf);
        }
      }
    }
  }

  lemma {:induction false} CellOfHalves(cfg: Config, splits: seq<Split>, node: nat, min: seq<Byte>, max: seq<Byte>)
    requires 1 <= node < |splits|
    ensures var (low, high) := CellOf(cfg, splits, node, min, max);
            && CellOf(cfg, splits, 2 * node, min, max) == (low, Cut(cfg, high, splits[node]))
            && CellOf(cfg, splits, 2 * node + 1, min, max) == (Cut(cfg, low, splits[node]), high)
  {
    hide Cut;
    assert (2 * node) / 2 == node == (2 * node + 1) / 2 && (2 * node) % 2 == 0 && (2 * node + 1) % 2 == 1;
  }

  lemma OwnLeaf(cfg: Config, splits: seq<Split>, leaves: nat, q: Query, node: nat, min: seq<Byte>, max: seq<Byte>)
    requires 1 <= leaves <= node < 2 * leaves
    ensures ReachedLeaves(cfg, splits, leaves, q, node, min, max) ==
            if CellRelation(cfg, splits, q, node, min, max).OutsideQuery? then {} else {node}
  {
    hide CellRelation;
    assert Under(node, node);
    forall leaf: nat | leaves <= leaf < 2 * leaves && Under(node, leaf) ensures leaf == node {
      if leaf != node {
        AboveRoot(node, leaf);
      }
    }
    forall a: nat | Under(node, a) && Under(a, node) ensures a == node {
      UnderTwice(node, a, node);
    }
  }

  lemma LeavesOfHalves(cfg: Config, splits: seq<Split>, leaves: nat, q: Query, node: nat,
                       min: seq<Byte>, max: seq<Byte>)
    requires 1 <= node < leaves && !CellRelation(cfg, splits, q, node, min, max).OutsideQuery?
    ensures var left := ReachedLeaves(cfg, splits, leaves, q, 2 * node, min, max);
            var right := ReachedLeaves(cfg, splits, leaves, q, 2 * node + 1, min, max);
            left !! right && ReachedLeaves(cfg, splits, leaves, q, node, min, max) == left + right
  {
    hide CellRelation, Reached;
    forall leaf: nat | leaves <= leaf < 2 * leaves
      ensures Under(2 * node, leaf) ==> Under(node, leaf) && !Under(2 * node + 1, leaf)
      ensures Under(2 * node + 1, leaf) ==> Under(node, leaf)
      ensures Under(node, leaf) ==> Under(2 * node, leaf) || Under(2 * node + 1, leaf)
      ensures Under(2 * node, leaf) ==>
                (Reached(cfg, splits, q, node, leaf, min, max) <==> Reached(cfg, splits, q, 2 * node, leaf, min, max))
      ensures Under(2 * node + 1, leaf) ==>
                (Reached(cfg, splits, q, node, leaf, min, max) <==>
                 Reached(cfg, splits, q, 2 * node + 1, leaf, min, max))
    {
      if Under(2 * node, leaf) {
        ReachedFromHalf(cfg, splits, q, node, 2 * node, leaf, min, max);
        ChildrenApart(node, leaf);
      } else if Under(2 * node + 1, leaf) {
        ReachedFromHalf(cfg, splits, q, node, 2 * node + 1, leaf, min, max);
      } else if Under(node, leaf) {
        UnderSplit(node, leaf);
      }
    }
  }

  lemma OutsideReachesNone(cfg: Config, splits: seq<Split>, leaves: nat, q: Query, node: nat,
                           min: seq<Byte>, max: seq<Byte>)
    requires node >= 1 && CellRelation(cfg, splits, q, node, min, max).OutsideQuery?
    ensures ReachedLeaves(cfg, splits, leaves, q, node, min, max) == {}
  {
    hide CellRelation;
    assert Under(node, node);
  }

  /** The estimate is the maximum of a leaf times the number of leaves that are reached: those
      on whose path no cell is outside. */
  lemma {:induction false} EstimateCountsReached(r: BKDReader, splits: seq<Split>, q: Query, node: nat,
                                                 min: seq<Byte>, max: seq<Byte>)
    requires HoldsSplits(r.cfg, r.splitPackedValues, splits) && |r.fps| == |splits| && 1 <= node < 2 * |splits|
    ensures var (low, high) := CellOf(r.cfg, splits, node, min, max);
            EstimatePointCount(r, q, node, low, high) ==
            r.cfg.maxPointsInLeafNode * |ReachedLeaves(r.cfg, splits, |splits|, q, node, min, max)|
    decreases Measure(|splits|, node)
  {
    hide ReachedLeaves, CellOf, Cut, ReaderSplit, EstimatePointCount;
    var (low, high) := CellOf(r.cfg, splits, node, min, max);
    if Relate(q, low, high).OutsideQuery? {
      EstimateOutside(r, q, node, low, high);
      OutsideReachesNone(r.cfg, splits, |splits|, q, node, min, max);
    } else if node >= |splits| {
      EstimateNode(r, splits, q, node, low, high);
      OwnLeaf(r.cfg, splits, |splits|, q, node, min, max);
    } else {
      EstimateNode(r, splits, q, node, low, high);
      CellOfHalves(r.cfg, splits, node, min, max);
      LeavesOfHalves(r.cfg, splits, |splits|, q, node, min, max);
      EstimateCountsReached(r, splits, q, 2 * node, min, max);
      EstimateCountsReached(r, splits, q, 2 * node + 1, min, max);
      var left := ReachedLeaves(r.cfg, splits, |splits|, q, 2 * node, min, max);
      var right := ReachedLeaves(r.cfg, splits, |splits|, q, 2 * node + 1, min, max);
      SumOfParts(r.cfg.maxPointsInLeafNode, left, right);
    }
  }

  lemma EstimateOutside(r: BKDReader, q: Query, node: nat, min: seq<Byte>, max: seq<Byte>)
    requires node >= 1 && |r.splitPackedValues| == |r.fps| * BytesPerIndexEntry(r.cfg)
    requires Relate(q, min, max).OutsideQuery?
    ensures EstimatePointCount(r, q, node, min, max) == 0
  {
  }

  lemma SumOfParts(m: nat, left: set<nat>, right: set<nat>)
    requires left !! right
    ensures m * |left + right| == m * |left| + m * |right|
  {
    assert |left + right| == |left| + |right|;
  }

  // The calls of a visitor

  /** The first cell on the path from the root that does not cross the query decides about a
      node, or its own cell, when all of them cross. */
  ghost function Decision(cfg: Config, splits: seq<Split>, q: Query, node: nat, min: seq<Byte>, max: seq<Byte>):
    Relation
    requires node >= 1
  {
    if node == 1 then CellRelation(cfg, splits, q, 1, min, max)
    else
      var above := Decision(cfg, splits, q, node / 2, min, max);
      if above.CrossesQuery? then CellRelation(cfg, splits, q, node, min, max) else above
  }

  /** The leaf that holds point i of the n points under `node`. */
  ghost function LeafOf(leaves: nat, node: nat, n: nat, i: nat): nat
    requires node >= 1 && i < n
    decreases Measure(leaves, node)
  {
    if node >= leaves then node
    else if i < Half(n) then LeafOf(leaves, 2 * node, Half(n), i)
    else LeafOf(leaves, 2 * node + 1, n - Half(n), i - Half(n))
  }

  /** The call for one point: none, one without its value, or one with it. */
  function CallFor(decision: Relation, p: Point): seq<Event> {
    match decision
    case OutsideQuery => []
    case InsideQuery => [Accepted(p.docID)]
    case CrossesQuery => [Offered(p.docID, p.packed)]
  }

  /** The calls for the first k points under `node`, each as its leaf's path decides. */
  ghost function CallsFor(cfg: Config, splits: seq<Split>, leaves: nat, q: Query, node: nat,
                          min: seq<Byte>, max: seq<Byte>, pts: seq<Point>, k: nat): seq<Event>
    requires node >= 1 && k <= |pts|
    decreases k
  {
    if k == 0 then []
    else
      var leaf := LeafOf(leaves, node, |pts|, k - 1);
      CallsFor(cfg, splits, leaves, q, node, min, max, pts, k - 1)
      + if leaf >= 1 then CallFor(Decision(cfg, splits, q, leaf, min, max), pts[k - 1]) else []
  }

  lemma {:induction false} LeafIsUnder(leaves: nat, node: nat, n: nat, i: nat)
    requires node >= 1 && i < n
    ensures Under(node, LeafOf(leaves, node, n, i)) && LeafOf(leaves, node, n, i) >= node
    decreases Measure(leaves, node)
  {
    if node < leaves {
      if i < Half(n) {
        LeafIsUnder(leaves, 2 * node, Half(n), i);
        UnderChild(node, 2 * node, LeafOf(leaves, node, n, i));
      } else {
        LeafIsUnder(leaves, 2 * node + 1, n - Half(n), i - Half(n));
        UnderChild(node, 2 * node + 1, LeafOf(leaves, node, n, i));
      }
    }
  }

  /** What is decided at a node is decided for everything under it. */
  lemma {:induction false} DecidedBelow(cfg: Config, splits: seq<Split>, q: Query, node: nat, k: nat,
                                        min: seq<Byte>, max: seq<Byte>)
    requires node >= 1 && Under(node, k) && !Decision(cfg, splits, q, node, min, max).CrossesQuery?
    ensures k >= 1 && Decision(cfg, splits, q, k, min, max) == Decision(cfg, splits, q, node, min, max)
  {
    hide CellRelation;
    if k != node {
      DecidedBelow(cfg, splits, q, node, k / 2, min, max);
    }
  }

  /** A decided node: the same call for each of its points. */
  lemma {:induction false} CallsDecided(cfg: Config, splits: seq<Split>, leaves: nat, q: Query, node: nat,
                                        min: seq<Byte>, max: seq<Byte>, pts: seq<Point>, k: nat)
    requires node >= 1 && k <= |pts| && !Decision(cfg, splits, q, node, min, max).CrossesQuery?
    ensures CallsFor(cfg, splits, leaves, q, node, min, max, pts, k) ==
            if Decision(cfg, splits, q, node, min, max).InsideQuery? then AcceptAll(pts[..k]) else []
  {
    hide Decision, LeafOf;
    if k > 0 {
      CallsDecided(cfg, splits, leaves, q, node, min, max, pts, k - 1);
      LeafIsUnder(leaves, node, |pts|, k - 1);
      DecidedBelow(cfg, splits, q, node, LeafOf(leaves, node, |pts|, k - 1), min, max);
      assert pts[..k] == pts[..k - 1] + [pts[k - 1]];
      AcceptNext(pts[..k - 1], pts[k - 1]);
    }
  }

  lemma AcceptNext(pts: seq<Point>, p: Point)
    ensures AcceptAll(pts + [p]) == AcceptAll(pts) + [Accepted(p.docID)]
    ensures OfferAll(pts + [p]) == OfferAll(pts) + [Offered(p.docID, p.packed)]
  {
  }

  lemma {:induction false} CallsOfLeaf(cfg: Config, splits: seq<Split>, leaves: nat, q: Query, node: nat,
                                       min: seq<Byte>, max: seq<Byte>, pts: seq<Point>, k: nat)
    requires 1 <= leaves <= node && k <= |pts| && Decision(cfg, splits, q, node, min, max).CrossesQuery?
    ensures CallsFor(cfg, splits, leaves, q, node, min, max, pts, k) == OfferAll(pts[..k])
  {
    hide Decision;
    if k > 0 {
      CallsOfLeaf(cfg, splits, leaves, q, node, min, max, pts, k - 1);
      assert pts[..k] == pts[..k - 1] + [pts[k - 1]];
      AcceptNext(pts[..k - 1], pts[k - 1]);
    }
  }

  lemma {:induction false} CallsOfLeft(cfg: Config, splits: seq<Split>, leaves: nat, q: Query, node: nat,
                                       min: seq<Byte>, max: seq<Byte>, pts: seq<Point>, k: nat)
    requires 1 <= node < leaves && k <= Half(|pts|) <= |pts|
    ensures CallsFor(cfg, splits, leaves, q, node, min, max, pts, k) ==
            CallsFor(cfg, splits, leaves, q, 2 * node, min, max, pts[..Half(|pts|)], k)
  {
    hide Decision;
    if k > 0 {
      CallsOfLeft(cfg, splits, leaves, q, node, min, max, pts, k - 1);
    }
  }

  lemma {:induction false} CallsOfRight(cfg: Config, splits: seq<Split>, leaves: nat, q: Query, node: nat,
                                        min: seq<Byte>, max: seq<Byte>, pts: seq<Point>, k: nat)
    requires 1 <= node < leaves && Half(|pts|) + k <= |pts|
    ensures CallsFor(cfg, splits, leaves, q, node, min, max, pts, Half(|pts|) + k) ==
            CallsFor(cfg, splits, leaves, q, node, min, max, pts, Half(|pts|))
            + CallsFor(cfg, splits, leaves, q, 2 * node + 1, min, max, pts[Half(|pts|)..], k)
  {
    hide Decision;
    if k > 0 {
      CallsOfRight(cfg, splits, leaves, q, node, min, max, pts, k - 1);
    }
  }

  /** The calls a visitor gets from a tree: for each point, in order, what the path of its leaf
      decides. Nothing comes from below a cell outside, and no value from below one inside. */
  lemma {:induction false} VisitsByLeaf(cfg: Config, splits: seq<Split>, leaves: nat, q: Query, node: nat,
                                        min: seq<Byte>, max: seq<Byte>, pts: seq<Point>)
    requires 1 <= node && 1 <= leaves <= |splits|
    requires node == 1 || Decision(cfg, splits, q, node / 2, min, max).CrossesQuery?
    ensures var (low, high) := CellOf(cfg, splits, node, min, max);
            Visits(cfg, splits, leaves, q, node, low, high, pts) ==
            CallsFor(cfg, splits, leaves, q, node, min, max, pts, |pts|)
    decreases Measure(leaves, node)
  {
    hide CallsFor, AcceptAll, OfferAll, CellOf, Cut;
    var (low, high) := CellOf(cfg, splits, node, min, max);
    assert Decision(cfg, splits, q, node, min, max) == Relate(q, low, high);
    assert pts[..|pts|] == pts;
    hide Decision;
    if !Relate(q, low, high).CrossesQuery? {
      CallsDecided(cfg, splits, leaves, q, node, min, max, pts, |pts|);
    } else if node >= leaves {
      CallsOfLeaf(cfg, splits, leaves, q, node, min, max, pts, |pts|);
    } else {
      var m := Half(|pts|);
      CellOfHalves(cfg, splits, node, min, max);
      assert (2 * node) / 2 == node == (2 * node + 1) / 2;
      VisitsByLeaf(cfg, splits, leaves, q, 2 * node, min, max, pts[..m]);
      VisitsByLeaf(cfg, splits, leaves, q, 2 * node + 1, min, max, pts[m..]);
      CallsOfLeft(cfg, splits, leaves, q, node, min, max, pts, m);
      CallsOfRight(cfg, splits, leaves, q, node, min, max, pts, |pts| - m);
    }
  }
}
