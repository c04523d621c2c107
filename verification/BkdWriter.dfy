/** The tree writer (codecs/simpletext/bkdwriter.go), on points held in heap. */
module BkdWriter {
  import opened Bytes
  import opened Powers
  import opened Text
  import opened Numerals
  import opened BkdLayout
  import opened BkdSelect
  import opened BkdTree
  import opened BkdCells

  const MAX_INT32: nat := 0x7fff_ffff

  // splitPackedValues: per node one byte for the dimension, then the value

  function SplitEntry(cfg: Config, packed: seq<Byte>, leaves: nat, node: nat): Split
    requires |packed| == leaves * (1 + cfg.bytesPerDim) && node < leaves
  {
    DimFits(node, leaves, 1 + cfg.bytesPerDim);
    var entry := Dim(packed, node, 1 + cfg.bytesPerDim);
    Split(entry[0], entry[1..])
  }

  function Splits(cfg: Config, packed: seq<Byte>, leaves: nat): (s: seq<Split>)
    requires |packed| == leaves * (1 + cfg.bytesPerDim)
    ensures |s| == leaves
    ensures forall k: nat | k < leaves :: s[k] == SplitEntry(cfg, packed, leaves, k)
  {
    seq(leaves, k requires 0 <= k < leaves => SplitEntry(cfg, packed, leaves, k))
  }

  /** Writing the entry of one node changes that entry and no other. */
  lemma WriteSplitEntry(cfg: Config, packed: seq<Byte>, leaves: nat, node: nat, split: Split)
    requires |packed| == leaves * (1 + cfg.bytesPerDim) && node < leaves
    requires split.dim < 256 && |split.value| == cfg.bytesPerDim
    ensures node * (1 + cfg.bytesPerDim) + (1 + cfg.bytesPerDim) <= |packed|
    ensures Splits(cfg, SetDim(packed, node, 1 + cfg.bytesPerDim, [split.dim] + split.value), leaves) ==
            Splits(cfg, packed, leaves)[node := split]
  {
    var w := 1 + cfg.bytesPerDim;
    DimFits(node, leaves, w);
    var entry: seq<Byte> := [split.dim] + split.value;
    var packed' := SetDim(packed, node, w, entry);
    assert entry[1..] == split.value;
    forall k: nat | k < leaves
      ensures SplitEntry(cfg, packed', leaves, k) ==
              if k == node then split else SplitEntry(cfg, packed, leaves, k)
    {
      DimOfSetDim(packed, node, leaves, w, entry, k);
    }
  }

  method CopyInto(dst: array<Byte>, at: nat, src: seq<Byte>)
    requires at + |src| <= dst.Length
    modifies dst
    ensures dst[..] == old(dst[..at]) + src + old(dst[at + |src|..])
  {
    forall i | 0 <= i < |src| {
      dst[at + i] := src[i];
    }
  }

  // Leaf blocks

  method WriteLeafBlockDocs(out: IndexOutput, pts: seq<Point>)
    modifies out
    ensures out.data == old(out.data) + Print(BlockLines(pts)[..1 + |pts|])
  {
    ghost var start, lines := out.data, BlockLines(pts);
    assert start + Print(lines[..0]) == start;
    out.PutLine(BLOCK_COUNT, Itoa(|pts|), start, lines, 0);
    var i := 0;
    while i < |pts|
      invariant 0 <= i <= |pts|
      invariant out.data == start + Print(lines[..1 + i])
    {
      out.PutLine(BLOCK_DOC_ID, Itoa(pts[i].docID), start, lines, 1 + i);
      i := i + 1;
    }
  }

  method WriteLeafBlockPackedValues(out: IndexOutput, pts: seq<Point>, ghost start: string)
    requires out.data == start + Print(BlockLines(pts)[..1 + |pts|])
    modifies out
    ensures out.data == start + Block(pts)
  {
    hide Print, BytesToString, Line;
    ghost var lines := BlockLines(pts);
    var i := 0;
    while i < |pts|
      invariant 0 <= i <= |pts|
      invariant out.data == start + Print(lines[..1 + |pts| + i])
    {
      out.PutLine(BLOCK_VALUE, BytesToString(pts[i].packed), start, lines, 1 + |pts| + i);
      i := i + 1;
    }
    PrintAll(lines);
  }

  method WriteLeafBlock(out: IndexOutput, pts: seq<Point>)
    modifies out
    ensures old(out.data) <= out.data && At(out.data, |old(out.data)|, Block(pts))
  {
    ghost var start := out.data;
    WriteLeafBlockDocs(out, pts);
    WriteLeafBlockPackedValues(out, pts, start);
    assert out.data == start + Block(pts) + [];
    AtAppend(start, Block(pts), []);
  }

  // The split dimension

  /** numeric.Subtract on one dimension: borrows from the last byte up. */
  method Subtract(a: seq<Byte>, b: seq<Byte>) returns (diff: seq<Byte>)
    requires |a| == |b|
    ensures |diff| == |a|
    ensures Val(b) <= Val(a) ==> Val(diff) == Val(a) - Val(b)
  {
    var borrow := 0;
    diff := [];
    var i := |a|;
    while i > 0
      invariant 0 <= i <= |a| && |diff| == |a| - i
      invariant borrow == 0 || borrow == 1
      invariant Val(diff) + Val(b[i..]) == Val(a[i..]) + borrow * Pow(256, |a| - i)
    {
      i := i - 1;
      var d: int := a[i] - b[i] - borrow;
      ghost var was := borrow;
      if d < 0 {
        d := d + 256;
        borrow := 1;
      } else {
        borrow := 0;
      }
      SubtractStep(a, b, i, diff, d, was, borrow);
      diff := [d] + diff;
    }
    assert a[0..] == a && b[0..] == b;
    ValBound(diff);
  }

  lemma SubtractDigit(d: int, x: int, y: int, was: int, borrow: int, p: int)
    requires d + y == x - was + 256 * borrow
    ensures d * p + y * p + was * p == x * p + borrow * (256 * p)
  {
    calc {
      d * p + y * p + was * p;
      (d + y + was) * p;
      (x + 256 * borrow) * p;
      x * p + borrow * (256 * p);
    }
  }

  /** One byte of the subtraction keeps the balance of the digits done so far. */
  lemma SubtractStep(a: seq<Byte>, b: seq<Byte>, i: nat, diff: seq<Byte>, d: Byte, was: int, borrow: int)
    requires i < |a| == |b| && |diff| == |a| - i - 1
    requires d + b[i] == a[i] - was + 256 * borrow
    requires Val(diff) + Val(b[i + 1..]) == Val(a[i + 1..]) + was * Pow(256, |a| - i - 1)
    ensures Val([d] + diff) + Val(b[i..]) == Val(a[i..]) + borrow * Pow(256, |a| - i)
  {
    var p := Pow(256, |a| - i - 1);
    ValHead(a[i..]);
    ValHead(b[i..]);
    assert a[i..][1..] == a[i + 1..] && b[i..][1..] == b[i + 1..];
    ValHead([d] + diff);
    assert ([d] + diff)[1..] == diff;
    assert Pow(256, |a| - i) == 256 * p;
    SubtractDigit(d, a[i], b[i], was, borrow, p);
  }

  /** split: the first of the widest dimensions of a proper cell. */
  method ChooseSplitDim(cfg: Config, min: seq<Byte>, max: seq<Byte>) returns (splitDim: nat)
    requires cfg.Valid() && IsBound(cfg, min) && IsBound(cfg, max)
    ensures splitDim < cfg.numIndexDims
    ensures (forall d: nat | d < cfg.numIndexDims :: 0 <= Span(cfg, min, max, d)) ==> Widest(cfg, min, max, splitDim)
  {
    ghost var proper := forall d: nat | d < cfg.numIndexDims :: 0 <= Span(cfg, min, max, d);
    CoordOk(cfg, min, 0);
    CoordOk(cfg, max, 0);
    splitDim := 0;
    var widest := Subtract(Dim(max, 0, cfg.bytesPerDim), Dim(min, 0, cfg.bytesPerDim));
    assert proper ==> Val(widest) == Span(cfg, min, max, 0);
    var dim := 1;
    while dim < cfg.numIndexDims
      invariant 1 <= dim <= cfg.numIndexDims && splitDim < dim
      invariant |widest| == cfg.bytesPerDim
      invariant proper ==> Val(widest) == Span(cfg, min, max, splitDim)
      invariant proper ==> forall d: nat | d < dim ::
                  && Span(cfg, min, max, d) <= Span(cfg, min, max, splitDim)
                  && (d < splitDim ==> Span(cfg, min, max, d) < Span(cfg, min, max, splitDim))
    {
      CoordOk(cfg, min, dim);
      CoordOk(cfg, max, dim);
      var diff := Subtract(Dim(max, dim, cfg.bytesPerDim), Dim(min, dim, cfg.bytesPerDim));
      assert proper ==> Val(diff) == Span(cfg, min, max, dim);
      LexIsNumeric(diff, widest);
      if !LexLe(diff, widest) {
        widest := diff;
        splitDim := dim;
      }
      dim := dim + 1;
    }
  }

  // The recursive build

  /** The state a build works on. */
  datatype Image = Image(file: string, fps: seq<nat>, splits: seq<Split>)

  ghost function Snapshot(cfg: Config, leaves: nat, out: IndexOutput, splits: array<Byte>, fps: array<nat>): Image
    requires splits.Length == leaves * (1 + cfg.bytesPerDim)
    reads out, splits, fps
  {
    Image(out.data, fps[..], Splits(cfg, splits[..], leaves))
  }

  /** What building `points` under `node` does: it appends to the file, touches no
      other node's entries, and, unless some half stays empty, leaves a tree over
      `pts`, an arrangement of the points. */
  ghost predicate BuildStep(cfg: Config, le: Order, node: nat, points: seq<Point>, s: Image, t: Image,
                            ok: bool, pts: seq<Point>)
    requires node >= 1
  {
    && s.file <= t.file
    && SameOutside(node, s.fps, t.fps, s.splits, t.splits)
    && (ok <==> Splittable(|t.fps|, node, |points|))
    && (ok ==>
          && multiset(pts) == multiset(points)
          && Built(cfg, t.file, t.fps, t.splits, node, pts)
          && (cfg.numDims == 1 ==> SortedBy(le, 0, pts)))
  }

  lemma HalvesCover(n: nat)
    requires n >= 2
    ensures 0 < Half(n) < n && n - Half(n) == n / 2 && Half(n) == (n + 1) / 2
  {
  }

  lemma HalvesSplittable(leaves: nat, node: nat, n: nat)
    requires 1 <= node < leaves
    ensures Splittable(leaves, node, n) <==>
            n >= 2 && Splittable(leaves, 2 * node, Half(n)) && Splittable(leaves, 2 * node + 1, n - Half(n))
  {
    if n >= 2 {
      HalvesCover(n);
    }
  }

  /** The left half could not be built. */
  lemma FirstHalf(cfg: Config, le: Order, node: nat, points: seq<Point>, left: seq<Point>, split: Split,
                  s: Image, t: Image, pts: seq<Point>)
    requires 1 <= node < |s.fps| == |s.splits| && |points| >= 2 && |left| == Half(|points|)
    requires BuildStep(cfg, le, 2 * node, left, s.(splits := s.splits[node := split]), t, false, pts)
    ensures BuildStep(cfg, le, node, points, s, t, false, pts)
  {
    HalvesSplittable(|s.fps|, node, |points|);
    SameBesideOne(node, s.fps, t.fps, s.splits[node := split], t.splits);
    SameBesideOutside(node, s.fps, t.fps, s.splits, split, t.splits);
  }

  /** A split and the trees built under its two halves make a tree. */
  lemma BothHalves(cfg: Config, le: Order, node: nat, points: seq<Point>, left: seq<Point>, right: seq<Point>,
                   split: Split, s: Image, t: Image, u: Image, lpts: seq<Point>, rpts: seq<Point>, ok: bool)
    requires cfg.Valid() && IsKeyOrder(cfg, le) && split.dim < cfg.numIndexDims
    requires 1 <= node < |s.fps| == |s.splits|
    requires |points| >= 2 && |left| == Half(|points|) && multiset(left + right) == multiset(points)
    requires IsPivot(cfg, le, split.dim, left, right, split.value)
    requires BuildStep(cfg, le, 2 * node, left, s.(splits := s.splits[node := split]), t, true, lpts)
    requires BuildStep(cfg, le, 2 * node + 1, right, t, u, ok, rpts)
    ensures BuildStep(cfg, le, node, points, s, u, ok, lpts + rpts)
  {
    SameElements(left + right, points);
    HalvesSplittable(|s.fps|, node, |points|);
    SameBesideTwo(node, s.fps, t.fps, u.fps, s.splits[node := split], t.splits, u.splits);
    SameBesideOutside(node, s.fps, u.fps, s.splits, split, u.splits);
    if ok {
      BothBuilt(cfg, le, node, left, right, split, t, u, lpts, rpts);
      assert multiset(lpts + rpts) == multiset(lpts) + multiset(rpts);
    }
  }

  lemma BothBuilt(cfg: Config, le: Order, node: nat, left: seq<Point>, right: seq<Point>,
                  split: Split, t: Image, u: Image, lpts: seq<Point>, rpts: seq<Point>)
    requires cfg.Valid() && IsKeyOrder(cfg, le) && split.dim < cfg.numIndexDims
    requires 1 <= node < |t.fps| == |t.splits| && |u.fps| == |t.fps| && |u.splits| == |t.splits|
    requires |left| == Half(|left| + |right|) && IsPivot(cfg, le, split.dim, left, right, split.value)
    requires u.splits[node] == split && t.file <= u.file
    requires SameOutside(2 * node + 1, t.fps, u.fps, t.splits, u.splits)
    requires multiset(lpts) == multiset(left) && multiset(rpts) == multiset(right)
    requires Built(cfg, t.file, t.fps, t.splits, 2 * node, lpts)
    requires Built(cfg, u.file, u.fps, u.splits, 2 * node + 1, rpts)
    ensures Built(cfg, u.file, u.fps, u.splits, node, lpts + rpts)
    ensures cfg.numDims == 1 && SortedBy(le, 0, lpts) && SortedBy(le, 0, rpts) ==> SortedBy(le, 0, lpts + rpts)
  {
    hide IsKeyOrder, IsPivot, Built, Sides, SortedBy;
    SameElements(lpts, left);
    SameElements(rpts, right);
    SameUnderLeft(node, t.fps, u.fps, t.splits, u.splits);
    BuiltStable(cfg, t.file, u.file, t.fps, u.fps, t.splits, u.splits, 2 * node, lpts);
    SplitBounds(cfg, le, split.dim, left, lpts, right, rpts, split.value);
    BuiltNode(cfg, u.file, u.fps, u.splits, node, lpts, rpts);
    if cfg.numDims == 1 && SortedBy(le, 0, lpts) && SortedBy(le, 0, rpts) {
      assert split.dim == 0;
      SelectionSeparates(cfg, le, split.dim, left, lpts, right, rpts, split.value);
      SortedHalves(le, 0, lpts, rpts);
    }
  }

  /** Where the points lie in the cell, a build splits on the widest dimensions. */
  ghost predicate BuiltWidest(cfg: Config, points: seq<Point>, node: nat, min: seq<Byte>, max: seq<Byte>,
                              t: Image, ok: bool)
    requires node >= 1
  {
    ok && AllInCell(cfg, points, min, max) ==> SplitsWidest(cfg, t.splits, |t.fps|, node, min, max)
  }

  /** A split on the widest dimension above two such halves. */
  lemma BothWidest(cfg: Config, le: Order, node: nat, points: seq<Point>, left: seq<Point>, right: seq<Point>,
                   split: Split, s: Image, t: Image, u: Image, lpts: seq<Point>, rpts: seq<Point>, ok: bool,
                   min: seq<Byte>, max: seq<Byte>)
    requires cfg.Valid() && IsKeyOrder(cfg, le) && split.dim < cfg.numIndexDims
    requires 1 <= node < |s.fps| == |s.splits| && multiset(left + right) == multiset(points)
    requires IsPivot(cfg, le, split.dim, left, right, split.value)
    requires AllInCell(cfg, points, min, max) ==> Widest(cfg, min, max, split.dim)
    requires BuildStep(cfg, le, 2 * node, left, s.(splits := s.splits[node := split]), t, true, lpts)
    requires BuildStep(cfg, le, 2 * node + 1, right, t, u, ok, rpts)
    requires BuiltWidest(cfg, left, 2 * node, min, Cut(cfg, max, split), t, true)
    requires BuiltWidest(cfg, right, 2 * node + 1, Cut(cfg, min, split), max, u, ok)
    ensures BuiltWidest(cfg, points, node, min, max, u, ok)
  {
    hide IsKeyOrder, IsPivot, AllInCell, Widest, Cut, Built;
    if ok && AllInCell(cfg, points, min, max) {
      SplitInCells(cfg, le, points, left, right, split, min, max);
      SameBesideTwo(node, s.fps, t.fps, u.fps, s.splits[node := split], t.splits, u.splits);
      SameBesideOutside(node, s.fps, u.fps, s.splits, split, u.splits);
      SameUnderLeft(node, t.fps, u.fps, t.splits, u.splits);
      WidestStable(cfg, t.fps, u.fps, t.splits, u.splits, 2 * node, min, Cut(cfg, max, split));
    }
  }

  /** The bounds of the two halves: the lower one of the right and the upper one of the left
      are set to the split value. */
  function CutBounds(cfg: Config, min: seq<Byte>, max: seq<Byte>, split: Split): (r: (seq<Byte>, seq<Byte>))
    requires cfg.Valid() && IsBound(cfg, min) && IsBound(cfg, max) && split.dim < cfg.numIndexDims
    requires |split.value| == cfg.bytesPerDim
    ensures r == (Cut(cfg, min, split), Cut(cfg, max, split)) && IsBound(cfg, r.0) && IsBound(cfg, r.1)
  {
    CoordOk(cfg, min, split.dim);
    CoordOk(cfg, max, split.dim);
    (SetDim(min, split.dim, cfg.bytesPerDim, split.value), SetDim(max, split.dim, cfg.bytesPerDim, split.value))
  }

  method WriteLeaf(cfg: Config, node: nat, leaves: nat, points: seq<Point>,
                   out: IndexOutput, ghost splits: array<Byte>, fps: array<nat>, ghost le: Order)
    returns (ghost pts: seq<Point>)
    requires cfg.Valid() && leaves <= node < 2 * leaves
    requires fps.Length == leaves && splits.Length == leaves * (1 + cfg.bytesPerDim)
    requires 1 <= |points| <= cfg.maxPointsInLeafNode && AllPacked(cfg, points) && IsKeyOrder(cfg, le)
    modifies out, fps
    ensures BuildStep(cfg, le, node, points, old(Snapshot(cfg, leaves, out, splits, fps)),
                      Snapshot(cfg, leaves, out, splits, fps), true, pts)
  {
    var sortedDim: nat :| sortedDim < cfg.numDims by { assert 0 < cfg.numDims; }
    var sorted := HeapRadixSort(cfg, points, sortedDim, le);
    SameElements(sorted, points);
    fps[node - leaves] := out.GetFilePointer();
    WriteLeafBlock(out, sorted);
    assert Under(node, leaves + (node - leaves));
    pts := sorted;
  }

  method WriteSplit(cfg: Config, splits: array<Byte>, ghost leaves: nat, node: nat, dim: nat, value: seq<Byte>)
    requires splits.Length == leaves * (1 + cfg.bytesPerDim) && node < leaves
    requires dim < 256 && |value| == cfg.bytesPerDim
    modifies splits
    ensures Splits(cfg, splits[..], leaves) == old(Splits(cfg, splits[..], leaves))[node := Split(dim, value)]
  {
    hide Splits;
    DimFits(node, leaves, 1 + cfg.bytesPerDim);
    var address := node * (1 + cfg.bytesPerDim);
    ghost var was := splits[..];
    splits[address] := dim;
    CopyInto(splits, address + 1, value);
    WriteSplitEntry(cfg, was, leaves, node, Split(dim, value));
    EntryWritten(was, node, 1 + cfg.bytesPerDim, dim, value);
  }

  lemma EntryWritten(was: seq<Byte>, node: nat, w: nat, dim: Byte, value: seq<Byte>)
    requires node * w + w <= |was| && 1 + |value| == w
    ensures var marked := was[node * w := dim];
            marked[..node * w + 1] + value + marked[node * w + 1 + |value|..] == SetDim(was, node, w, [dim] + value)
  {
    var at := node * w;
    assert was[at := dim] == was[..at] + [dim] + was[at + 1..];
  }

  /** The work of an inner node before it recurses: choose the dimension, make
      the two slices, record dimension and value. */
  method SplitSlice(cfg: Config, node: nat, leaves: nat, points: seq<Point>, min: seq<Byte>, max: seq<Byte>,
                    splits: array<Byte>, ghost le: Order)
    returns (r: Option<(seq<Point>, seq<Point>, Split)>)
    requires cfg.Valid() && 1 <= node < leaves && splits.Length == leaves * (1 + cfg.bytesPerDim)
    requires 1 <= |points| && AllPacked(cfg, points) && IsKeyOrder(cfg, le)
    requires IsBound(cfg, min) && IsBound(cfg, max)
    modifies splits
    ensures r.None? ==> |points| < 2 && splits[..] == old(splits[..])
    ensures r.Some? ==>
              var (left, right, split) := r.value;
              && |points| >= 2 && |left| == Half(|points|) && |right| == |points| / 2
              && multiset(left + right) == multiset(points)
              && AllPacked(cfg, left) && AllPacked(cfg, right)
              && split.dim < cfg.numIndexDims && |split.value| == cfg.bytesPerDim
              && IsPivot(cfg, le, split.dim, left, right, split.value)
              && Splits(cfg, splits[..], leaves) == old(Splits(cfg, splits[..], leaves))[node := split]
              && (AllInCell(cfg, points, min, max) ==> Widest(cfg, min, max, split.dim))
  {
    if AllInCell(cfg, points, min, max) {
      ProperCell(cfg, points, min, max);
    }
    hide AllInCell;
    var splitDim := 0;
    if cfg.numIndexDims > 1 {
      splitDim := ChooseSplitDim(cfg, min, max);
    }
    var rightCount := |points| / 2;
    var leftCount := |points| - rightCount;
    var slices := Select(cfg, points, leftCount, splitDim, le);
    if slices.None? {
      return None;
    }
    var (left, right, splitValue) := slices.value;
    SameElements(left + right, points);
    WriteSplit(cfg, splits, leaves, node, splitDim, splitValue);
    return Some((left, right, Split(splitDim, splitValue)));
  }

  /** buildV2: false stands for the error of an empty half. */
  method BuildV2(cfg: Config, node: nat, leaves: nat, points: seq<Point>, out: IndexOutput,
                 min: seq<Byte>, max: seq<Byte>, splits: array<Byte>, fps: array<nat>, ghost le: Order)
    returns (ok: bool, ghost pts: seq<Point>)
    requires cfg.Valid() && 1 <= node < 2 * leaves
    requires fps.Length == leaves && splits.Length == leaves * (1 + cfg.bytesPerDim)
    requires 1 <= |points| && AllPacked(cfg, points) && IsKeyOrder(cfg, le)
    requires IsBound(cfg, min) && IsBound(cfg, max)
    requires LeafSizes(leaves, node, |points|, 0, cfg.maxPointsInLeafNode)
    modifies out, splits, fps
    ensures BuildStep(cfg, le, node, points, old(Snapshot(cfg, leaves, out, splits, fps)),
                      Snapshot(cfg, leaves, out, splits, fps), ok, pts)
    ensures BuiltWidest(cfg, points, node, min, max, Snapshot(cfg, leaves, out, splits, fps), ok)
    decreases Measure(leaves, node)
  {
    hide AllInCell, Widest, IsPivot, Cut, CutBounds;
    if node >= leaves {
      pts := WriteLeaf(cfg, node, leaves, points, out, splits, fps, le);
      return true, pts;
    }
    ghost var s := Snapshot(cfg, leaves, out, splits, fps);
    var slices := SplitSlice(cfg, node, leaves, points, min, max, splits, le);
    if slices.None? {
      return false, [];
    }
    var (left, right, split) := slices.value;
    var (minSplit, maxSplit) := CutBounds(cfg, min, max, split);
    ghost var lpts, rpts;
    ok, lpts := BuildV2(cfg, 2 * node, leaves, left, out, min, maxSplit, splits, fps, le);
    ghost var t := Snapshot(cfg, leaves, out, splits, fps);
    if !ok {
      FirstHalf(cfg, le, node, points, left, split, s, t, lpts);
      return false, lpts;
    }
    ok, rpts := BuildV2(cfg, 2 * node + 1, leaves, right, out, minSplit, max, splits, fps, le);
    ghost var u := Snapshot(cfg, leaves, out, splits, fps);
    BothHalves(cfg, le, node, points, left, right, split, s, t, u, lpts, rpts, ok);
    BothWidest(cfg, le, node, points, left, right, split, s, t, u, lpts, rpts, ok, min, max);
    pts := lpts + rpts;
  }
}
