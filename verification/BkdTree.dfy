/** What a written tree is: the leaf blocks of a file, the table of their file
    positions and the split of every inner node, seen from one node down. */
module BkdTree {
  import opened Bytes
  import opened Text
  import opened Numerals
  import opened BkdLayout
  import opened BkdSelect

  const BLOCK_COUNT := "block count "
  const BLOCK_DOC_ID := "  doc "
  const BLOCK_VALUE := "  block value "

  datatype Split = Split(dim: nat, value: seq<Byte>)

  /** The lines of one leaf block: its count, its documents, then its values. */
  function BlockLine(pts: seq<Point>, k: nat): string
    requires k < 1 + 2 * |pts|
  {
    if k == 0 then BLOCK_COUNT + Itoa(|pts|)
    else if k < 1 + |pts| then BLOCK_DOC_ID + Itoa(pts[k - 1].docID)
    else BLOCK_VALUE + BytesToString(pts[k - 1 - |pts|].packed)
  }

  function BlockLines(pts: seq<Point>): (lines: seq<string>)
    ensures |lines| == 1 + 2 * |pts|
  {
    seq(1 + 2 * |pts|, k requires 0 <= k < 1 + 2 * |pts| => BlockLine(pts, k))
  }

  function Block(pts: seq<Point>): string {
    Print(BlockLines(pts))
  }

  ghost predicate LeafBuilt(cfg: Config, file: string, fp: nat, pts: seq<Point>) {
    && 1 <= |pts| <= cfg.maxPointsInLeafNode
    && AllPacked(cfg, pts)
    && At(file, fp, Block(pts))
  }

  ghost function ValueOf(cfg: Config, p: Point, dim: nat): seq<Byte>
    requires cfg.Valid() && dim < cfg.numIndexDims && IsPacked(cfg, p.packed)
  {
    CoordOk(cfg, p.packed, dim);
    Dim(p.packed, dim, cfg.bytesPerDim)
  }

  ghost function CoordOf(cfg: Config, p: Point, dim: nat): nat
    requires cfg.Valid() && dim < cfg.numIndexDims && IsPacked(cfg, p.packed)
  {
    CoordOk(cfg, p.packed, dim);
    Coord(cfg, p.packed, dim)
  }

  /** The split value bounds the left points from above and the right points
      from below in the split dimension, and it is the value of one on the right. */
  ghost predicate Sides(cfg: Config, split: Split, left: seq<Point>, right: seq<Point>) {
    && cfg.Valid()
    && split.dim < cfg.numIndexDims && |split.value| == cfg.bytesPerDim
    && AllPacked(cfg, left) && AllPacked(cfg, right)
    && (forall p <- left :: CoordOf(cfg, p, split.dim) <= Val(split.value))
    && (forall p <- right :: Val(split.value) <= CoordOf(cfg, p, split.dim))
    && (exists p <- right :: ValueOf(cfg, p, split.dim) == split.value)
  }

  datatype Place = Leaf(index: nat) | Inner | Beyond

  function PlaceOf(leaves: nat, node: nat): Place {
    if node < leaves then Inner else if node < 2 * leaves then Leaf(node - leaves) else Beyond
  }

  /** Under `node` stands a tree over exactly these points, in this order. */
  ghost predicate Built(cfg: Config, file: string, fps: seq<nat>, splits: seq<Split>, node: nat, pts: seq<Point>)
    requires node >= 1
    decreases Measure(|fps|, node)
  {
    match PlaceOf(|fps|, node)
    case Leaf(index) => LeafBuilt(cfg, file, fps[index], pts)
    case Beyond => false
    case Inner =>
      var m := Half(|pts|);
      && node < |splits|
      && Sides(cfg, splits[node], pts[..m], pts[m..])
      && Built(cfg, file, fps, splits, 2 * node, pts[..m])
      && Built(cfg, file, fps, splits, 2 * node + 1, pts[m..])
  }

  /** The tables agree on everything that is not under `node`. */
  ghost predicate SameOutside(node: nat, fps: seq<nat>, fps': seq<nat>, splits: seq<Split>, splits': seq<Split>) {
    && |fps| == |fps'| && |splits| == |splits'|
    && (forall k: nat | k < |fps| && !Under(node, |fps| + k) :: fps[k] == fps'[k])
    && (forall k: nat | k < |splits| && !Under(node, k) :: splits[k] == splits'[k])
  }

  /** The tables agree on everything that is not strictly under `node`. */
  ghost predicate SameBeside(node: nat, fps: seq<nat>, fps': seq<nat>, splits: seq<Split>, splits': seq<Split>) {
    && |fps| == |fps'| && |splits| == |splits'|
    && (forall k: nat | k < |fps| && !UnderHalf(node, |fps| + k) :: fps[k] == fps'[k])
    && (forall k: nat | k < |splits| && !UnderHalf(node, k) :: splits[k] == splits'[k])
  }

  ghost predicate UnderHalf(node: nat, k: nat) {
    Under(2 * node, k) || Under(2 * node + 1, k)
  }

  lemma HalvesUnder(node: nat)
    requires node >= 1
    ensures forall k: nat | UnderHalf(node, k) :: Under(node, k) && node < k
    ensures forall k: nat | Under(2 * node, k) :: !Under(2 * node + 1, k)
  {
    forall k: nat | UnderHalf(node, k) ensures Under(node, k) && node < k {
      UnderChild(node, if Under(2 * node, k) then 2 * node else 2 * node + 1, k);
    }
    forall k: nat | Under(2 * node, k) ensures !Under(2 * node + 1, k) {
      ChildrenApart(node, k);
    }
  }

  lemma SameBesideOne(node: nat, fps: seq<nat>, fps1: seq<nat>, splits: seq<Split>, splits1: seq<Split>)
    requires SameOutside(2 * node, fps, fps1, splits, splits1)
    ensures SameBeside(node, fps, fps1, splits, splits1)
  {
  }

  lemma SameBesideTwo(node: nat, fps: seq<nat>, fps1: seq<nat>, fps2: seq<nat>,
                      splits: seq<Split>, splits1: seq<Split>, splits2: seq<Split>)
    requires SameOutside(2 * node, fps, fps1, splits, splits1)
    requires SameOutside(2 * node + 1, fps1, fps2, splits1, splits2)
    ensures SameBeside(node, fps, fps2, splits, splits2)
  {
  }

  lemma SameBesideOutside(node: nat, fps: seq<nat>, fps2: seq<nat>, splits: seq<Split>, split: Split,
                          splits2: seq<Split>)
    requires 1 <= node < |splits|
    requires SameBeside(node, fps, fps2, splits[node := split], splits2)
    ensures SameOutside(node, fps, fps2, splits, splits2) && splits2[node] == split
  {
    HalvesUnder(node);
    assert Under(node, node);
  }

  /** The tables agree on everything that is under `node`. */
  ghost predicate SameUnder(node: nat, fps: seq<nat>, fps': seq<nat>, splits: seq<Split>, splits': seq<Split>) {
    && |fps| == |fps'| && |splits| == |splits'|
    && (forall k: nat | k < |fps| && Under(node, |fps| + k) :: fps[k] == fps'[k])
    && (forall k: nat | k < |splits| && Under(node, k) :: splits[k] == splits'[k])
  }

  lemma SameUnderLeft(node: nat, fps: seq<nat>, fps': seq<nat>, splits: seq<Split>, splits': seq<Split>)
    requires node >= 1 && SameOutside(2 * node + 1, fps, fps', splits, splits')
    ensures SameUnder(2 * node, fps, fps', splits, splits')
  {
    HalvesUnder(node);
  }

  lemma SameUnderHalves(node: nat, fps: seq<nat>, fps': seq<nat>, splits: seq<Split>, splits': seq<Split>)
    requires node >= 1 && SameUnder(node, fps, fps', splits, splits')
    ensures SameUnder(2 * node, fps, fps', splits, splits')
    ensures SameUnder(2 * node + 1, fps, fps', splits, splits')
  {
    HalvesUnder(node);
    assert forall k: nat | Under(2 * node, k) || Under(2 * node + 1, k) :: UnderHalf(node, k);
  }

  /** A tree survives later writing: the file may grow and the tables may change
      wherever they do not describe the tree. */
  lemma {:induction false} BuiltStable(cfg: Config, file: string, file': string,
                                       fps: seq<nat>, fps': seq<nat>, splits: seq<Split>, splits': seq<Split>,
                                       node: nat, pts: seq<Point>)
    requires node >= 1 && Built(cfg, file, fps, splits, node, pts) && file <= file'
    requires SameUnder(node, fps, fps', splits, splits')
    ensures Built(cfg, file', fps', splits', node, pts)
    decreases Measure(|fps|, node)
  {
    hide Sides, Block, At;
    if node >= |fps| {
      assert Under(node, |fps| + (node - |fps|));
      AtGrows(file, file', fps[node - |fps|], Block(pts));
    } else {
      hide LeafBuilt;
      var m := Half(|pts|);
      assert Under(node, node);
      SameUnderHalves(node, fps, fps', splits, splits');
      BuiltStable(cfg, file, file', fps, fps', splits, splits', 2 * node, pts[..m]);
      BuiltStable(cfg, file, file', fps, fps', splits, splits', 2 * node + 1, pts[m..]);
    }
  }

  /** A selection bounds both sides by the split value, whatever order the sides
      are brought into afterwards. */
  lemma SplitBounds(cfg: Config, le: Order, dim: nat, left0: seq<Point>, left: seq<Point>,
                    right0: seq<Point>, right: seq<Point>, value: seq<Byte>)
    requires cfg.Valid() && dim < cfg.numIndexDims && IsKeyOrder(cfg, le)
    requires IsPivot(cfg, le, dim, left0, right0, value)
    requires multiset(left) == multiset(left0) && multiset(right) == multiset(right0)
    ensures Sides(cfg, Split(dim, value), left, right)
  {
    var pivot: Point :|
      && pivot in right0
      && IsPacked(cfg, pivot.packed) && dim * cfg.bytesPerDim + cfg.bytesPerDim <= |pivot.packed|
      && value == Dim(pivot.packed, dim, cfg.bytesPerDim)
      && PartitionedAt(le, dim, left0, pivot, right0);
    SameElements(left, left0);
    SameElements(right, right0);
    forall p | p in left ensures KeyLe(cfg, dim, p, pivot) {
      assert Comes(le, dim, p, pivot);
    }
    forall p | p in right ensures KeyLe(cfg, dim, pivot, p) {
      assert Comes(le, dim, pivot, p);
    }
  }

  ghost predicate AllComes(le: Order, dim: nat, left: seq<Point>, right: seq<Point>) {
    forall p, q | p in left && q in right :: Comes(le, dim, p, q)
  }

  lemma SelectionSeparates(cfg: Config, le: Order, dim: nat, left0: seq<Point>, left: seq<Point>,
                           right0: seq<Point>, right: seq<Point>, value: seq<Byte>)
    requires IsKeyOrder(cfg, le) && IsPivot(cfg, le, dim, left0, right0, value)
    requires multiset(left) == multiset(left0) && multiset(right) == multiset(right0)
    ensures AllComes(le, dim, left, right)
  {
    var pivot: Point :|
      && pivot in right0
      && IsPacked(cfg, pivot.packed) && dim * cfg.bytesPerDim + cfg.bytesPerDim <= |pivot.packed|
      && value == Dim(pivot.packed, dim, cfg.bytesPerDim)
      && PartitionedAt(le, dim, left0, pivot, right0);
    SameElements(left, left0);
    SameElements(right, right0);
    forall p | p in left ensures Comes(le, dim, p, pivot) {
    }
    forall q | q in right ensures Comes(le, dim, pivot, q) {
    }
    forall p, q | p in left && q in right ensures Comes(le, dim, p, q) {
      KeyLeTransitive(cfg, le, dim, p, pivot, q);
    }
  }

  /** Two sorted halves of a selection are sorted as a whole. */
  lemma SortedHalves(le: Order, dim: nat, left: seq<Point>, right: seq<Point>)
    requires AllComes(le, dim, left, right)
    requires SortedBy(le, dim, left) && SortedBy(le, dim, right)
    ensures SortedBy(le, dim, left + right)
  {
    var s := left + right;
    forall i, j | 0 <= i < j < |s| ensures Comes(le, dim, s[i], s[j]) {
      if j < |left| {
        assert s[i] == left[i] && s[j] == left[j];
      } else if i >= |left| {
        assert s[i] == right[i - |left|] && s[j] == right[j - |left|];
      } else {
        assert s[i] == left[i] && s[j] == right[j - |left|];
      }
    }
  }

  lemma BuiltNode(cfg: Config, file: string, fps: seq<nat>, splits: seq<Split>, node: nat,
                  left: seq<Point>, right: seq<Point>)
    requires 1 <= node < |fps| == |splits| && |left| == Half(|left| + |right|)
    requires Sides(cfg, splits[node], left, right)
    requires Built(cfg, file, fps, splits, 2 * node, left)
    requires Built(cfg, file, fps, splits, 2 * node + 1, right)
    ensures Built(cfg, file, fps, splits, node, left + right)
  {
    var pts := left + right;
    assert pts[..Half(|pts|)] == left && pts[Half(|pts|)..] == right;
  }

  lemma {:induction false} UnderSplit(node: nat, k: nat)
    requires node >= 1 && Under(node, k) && k != node
    ensures UnderHalf(node, k)
  {
    if k / 2 == node {
      assert k == 2 * node || k == 2 * node + 1;
    } else {
      UnderSplit(node, k / 2);
    }
  }

  lemma {:induction false} UnderRoot(k: nat)
    requires k >= 1
    ensures Under(1, k)
  {
    if k > 1 {
      UnderRoot(k / 2);
    }
  }

  /** In a tree every inner node splits on an indexed dimension, at a value of
      the right width. */
  lemma {:induction false} BuiltEntries(cfg: Config, file: string, fps: seq<nat>, splits: seq<Split>,
                                        node: nat, pts: seq<Point>, k: nat)
    requires node >= 1 && Built(cfg, file, fps, splits, node, pts) && Under(node, k) && k < |fps|
    ensures k < |splits| && splits[k].dim < cfg.numIndexDims && |splits[k].value| == cfg.bytesPerDim
    decreases Measure(|fps|, node)
  {
    hide LeafBuilt;
    if k != node {
      AboveRoot(node, k);
      UnderSplit(node, k);
      var m := Half(|pts|);
      if Under(2 * node, k) {
        BuiltEntries(cfg, file, fps, splits, 2 * node, pts[..m], k);
      } else {
        BuiltEntries(cfg, file, fps, splits, 2 * node + 1, pts[m..], k);
      }
    }
  }

  /** The position of every leaf lies inside the file. */
  lemma {:induction false} BuiltPositions(cfg: Config, file: string, fps: seq<nat>, splits: seq<Split>,
                                          node: nat, pts: seq<Point>, k: nat)
    requires node >= 1 && Built(cfg, file, fps, splits, node, pts) && Under(node, k) && |fps| <= k < 2 * |fps|
    ensures fps[k - |fps|] <= |file|
    decreases Measure(|fps|, node)
  {
    hide Sides, Block;
    if k != node {
      AboveRoot(node, k);
      if node < |fps| {
        UnderSplit(node, k);
        var m := Half(|pts|);
        if Under(2 * node, k) {
          BuiltPositions(cfg, file, fps, splits, 2 * node, pts[..m], k);
        } else {
          BuiltPositions(cfg, file, fps, splits, 2 * node + 1, pts[m..], k);
        }
      }
    }
  }

  lemma AboveRoot(node: nat, k: nat)
    requires node >= 1 && Under(node, k) && k != node
    ensures k >= 2 * node
  {
    UnderSplit(node, k);
  }
}
