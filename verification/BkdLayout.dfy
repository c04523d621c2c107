/** The shape of a block k-d tree: points, cells, node numbers and leaf sizes. */
module BkdLayout {
  import opened Arithmetic
  import opened Bytes
  import opened Powers

  datatype Config = Config(numDims: nat, numIndexDims: nat, bytesPerDim: nat, maxPointsInLeafNode: nat) {
    predicate Valid() {
      && 1 <= numDims <= 16
      && 1 <= numIndexDims <= 8
      && numIndexDims <= numDims
      && 1 <= bytesPerDim
      && 1 <= maxPointsInLeafNode
    }

    function PackedBytesLength(): nat {
      numDims * bytesPerDim
    }

    function PackedIndexBytesLength(): nat {
      numIndexDims * bytesPerDim
    }
  }

  type DocId = n: int | 0 <= n < 0x8000_0000

  datatype Point = Point(packed: seq<Byte>, docID: DocId)

  // Values: byte strings compare as the numbers they spell

  function Val(s: seq<Byte>): nat {
    if s == [] then 0 else Val(s[..|s| - 1]) * 256 + s[|s| - 1]
  }

  /** bytes.Compare(a, b) <= 0 */
  predicate LexLe(a: seq<Byte>, b: seq<Byte>) {
    if a == [] then true
    else if b == [] then false
    else a[0] < b[0] || (a[0] == b[0] && LexLe(a[1..], b[1..]))
  }

  lemma {:induction false} ValBound(s: seq<Byte>)
    ensures Val(s) < Pow(256, |s|)
  {
    if s != [] {
      ValBound(s[..|s| - 1]);
    }
  }

  lemma {:induction false} ValHead(s: seq<Byte>)
    requires s != []
    ensures Val(s) == s[0] * Pow(256, |s| - 1) + Val(s[1..])
  {
    var t := s[..|s| - 1];
    if t == [] {
      assert s[1..] == [];
      assert Pow(256, 0) == 1;
    } else {
      ValHead(t);
      assert s[1..][..|s[1..]| - 1] == t[1..];
      calc {
        Val(s);
        (s[0] * Pow(256, |t| - 1) + Val(t[1..])) * 256 + s[|s| - 1];
        s[0] * Pow(256, |t| - 1) * 256 + Val(s[1..]);
        { assert Pow(256, |t|) == 256 * Pow(256, |t| - 1); }
        s[0] * Pow(256, |s| - 1) + Val(s[1..]);
      }
    }
  }

  /** Of two numbers the leading digits decide, then the rest. */
  lemma LeadingDigit(x: nat, u: nat, y: nat, v: nat, p: nat)
    requires u < p && v < p
    ensures x * p + u <= y * p + v <==> x < y || (x == y && u <= v)
  {
    if x < y {
      assert (x + 1) * p <= y * p;
    } else if y < x {
      assert (y + 1) * p <= x * p;
    }
  }

  /** On byte strings of one length the comparison of bytes is the comparison of
      the numbers. */
  lemma {:induction false} LexIsNumeric(a: seq<Byte>, b: seq<Byte>)
    requires |a| == |b|
    ensures LexLe(a, b) <==> Val(a) <= Val(b)
  {
    if a != [] {
      LexIsNumeric(a[1..], b[1..]);
      ValHead(a);
      ValHead(b);
      ValBound(a[1..]);
      ValBound(b[1..]);
      LeadingDigit(a[0], Val(a[1..]), b[0], Val(b[1..]), Pow(256, |a| - 1));
    }
  }

  // Dimensions of a packed value

  lemma DimFits(dim: nat, dims: nat, w: nat)
    requires dim < dims
    ensures dim * w + w == (dim + 1) * w <= dims * w
  {
  }

  function Dim(p: seq<Byte>, dim: nat, w: nat): (v: seq<Byte>)
    requires dim * w + w <= |p|
    ensures |v| == w
  {
    p[dim * w..dim * w + w]
  }

  function SetDim(p: seq<Byte>, dim: nat, w: nat, v: seq<Byte>): (q: seq<Byte>)
    requires dim * w + w <= |p| && |v| == w
    ensures |q| == |p|
  {
    p[..dim * w] + v + p[dim * w + w..]
  }

  lemma DimOfSetDim(p: seq<Byte>, dim: nat, dims: nat, w: nat, v: seq<Byte>, d: nat)
    requires |p| == dims * w && dim < dims && d < dims && |v| == w
    ensures dim * w + w <= |p| && d * w + w <= |p|
    ensures Dim(SetDim(p, dim, w, v), d, w) == if d == dim then v else Dim(p, d, w)
  {
    DimFits(dim, dims, w);
    DimFits(d, dims, w);
    var q := SetDim(p, dim, w, v);
    if d < dim {
      Apart(d, dim, w);
      assert q[..dim * w] == p[..dim * w];
      assert q[d * w..d * w + w] == q[..dim * w][d * w..d * w + w];
    } else if dim < d {
      Apart(dim, d, w);
      assert q[dim * w + w..] == p[dim * w + w..];
      assert q[d * w..d * w + w] == q[dim * w + w..][d * w - (dim * w + w)..d * w - dim * w];
    }
  }

  /** The number a packed value holds in one dimension. */
  function Coord(cfg: Config, p: seq<Byte>, dim: nat): nat
    requires dim * cfg.bytesPerDim + cfg.bytesPerDim <= |p|
  {
    Val(Dim(p, dim, cfg.bytesPerDim))
  }

  ghost predicate IsPacked(cfg: Config, p: seq<Byte>) {
    |p| == cfg.PackedBytesLength()
  }

  ghost predicate IsBound(cfg: Config, p: seq<Byte>) {
    |p| == cfg.PackedIndexBytesLength()
  }

  lemma CoordOk(cfg: Config, p: seq<Byte>, dim: nat)
    requires cfg.Valid() && dim < cfg.numIndexDims && (IsPacked(cfg, p) || IsBound(cfg, p))
    ensures dim * cfg.bytesPerDim + cfg.bytesPerDim <= |p|
  {
    DimFits(dim, cfg.numIndexDims, cfg.bytesPerDim);
    DimFits(dim, cfg.numDims, cfg.bytesPerDim);
  }

  ghost predicate Between(cfg: Config, p: seq<Byte>, min: seq<Byte>, max: seq<Byte>, dim: nat)
    requires cfg.Valid() && IsPacked(cfg, p) && IsBound(cfg, min) && IsBound(cfg, max)
    requires dim < cfg.numIndexDims
  {
    CoordOk(cfg, p, dim);
    CoordOk(cfg, min, dim);
    CoordOk(cfg, max, dim);
    Coord(cfg, min, dim) <= Coord(cfg, p, dim) <= Coord(cfg, max, dim)
  }

  /** A packed value lies in the cell between two bounds. */
  ghost predicate InCell(cfg: Config, p: seq<Byte>, min: seq<Byte>, max: seq<Byte>) {
    && cfg.Valid() && IsPacked(cfg, p) && IsBound(cfg, min) && IsBound(cfg, max)
    && forall dim: nat | dim < cfg.numIndexDims :: Between(cfg, p, min, max, dim)
  }

  ghost predicate AllInCell(cfg: Config, pts: seq<Point>, min: seq<Byte>, max: seq<Byte>) {
    match cfg
    case Config(_, _, _, _) => forall p <- pts :: InCell(cfg, p.packed, min, max)
  }

  lemma DimInside(cfg: Config, dim: nat)
    requires cfg.Valid() && dim < cfg.numIndexDims
    ensures dim * cfg.bytesPerDim + cfg.bytesPerDim <= cfg.PackedIndexBytesLength() <= cfg.PackedBytesLength()
  {
    DimFits(dim, cfg.numIndexDims, cfg.bytesPerDim);
    assert cfg.numIndexDims * cfg.bytesPerDim <= cfg.numDims * cfg.bytesPerDim;
  }

  /** Cutting a cell at a value that bounds the point keeps the point inside. */
  lemma CutCell(cfg: Config, p: seq<Byte>, min: seq<Byte>, max: seq<Byte>, dim: nat, v: seq<Byte>)
    requires InCell(cfg, p, min, max) && dim < cfg.numIndexDims && |v| == cfg.bytesPerDim
    ensures dim * cfg.bytesPerDim + cfg.bytesPerDim <= |min| == |max| <= |p|
    ensures Coord(cfg, p, dim) <= Val(v) ==>
              InCell(cfg, p, min, SetDim(max, dim, cfg.bytesPerDim, v))
    ensures Val(v) <= Coord(cfg, p, dim) ==>
              InCell(cfg, p, SetDim(min, dim, cfg.bytesPerDim, v), max)
  {
    var w := cfg.bytesPerDim;
    DimInside(cfg, dim);
    forall d: nat | d < cfg.numIndexDims
      ensures Coord(cfg, p, dim) <= Val(v) ==> Between(cfg, p, min, SetDim(max, dim, w, v), d)
      ensures Val(v) <= Coord(cfg, p, dim) ==> Between(cfg, p, SetDim(min, dim, w, v), max, d)
    {
      assert Between(cfg, p, min, max, d);
      DimInside(cfg, d);
      DimOfSetDim(max, dim, cfg.numIndexDims, w, v, d);
      DimOfSetDim(min, dim, cfg.numIndexDims, w, v, d);
    }
  }

  // Node numbers: node n has the children 2n and 2n+1; the leaves are the
  // numbers from the leaf count up

  ghost predicate Under(root: nat, node: nat) {
    node == root || (root < node && Under(root, node / 2))
  }

  lemma {:induction false} UnderChild(root: nat, child: nat, node: nat)
    requires root >= 1 && (child == 2 * root || child == 2 * root + 1) && Under(child, node)
    ensures Under(root, node) && root < node
  {
    if node != child {
      UnderChild(root, child, node / 2);
    } else {
      assert Under(root, node / 2);
    }
  }

  lemma {:induction false} ChildrenApart(root: nat, node: nat)
    requires root >= 1 && Under(2 * root, node)
    ensures !Under(2 * root + 1, node)
  {
    if node != 2 * root {
      ChildrenApart(root, node / 2);
    } else {
      assert !Under(2 * root + 1, node / 2);
    }
  }

  // Leaf sizes

  function Measure(leaves: nat, node: nat): nat {
    if node < leaves then leaves - node else 0
  }

  /** Every leaf under `node` that receives points by ceiling and floor halving
      gets between lo and hi of them. */
  ghost predicate LeafSizes(leaves: nat, node: nat, n: nat, lo: nat, hi: nat)
    requires node >= 1
    decreases Measure(leaves, node)
  {
    if node >= leaves then lo <= n <= hi
    else LeafSizes(leaves, 2 * node, Half(n), lo, hi) && LeafSizes(leaves, 2 * node + 1, n / 2, lo, hi)
  }

  /** Every inner node under `node` gets at least two points, so that both its
      halves are inhabited. */
  ghost predicate Splittable(leaves: nat, node: nat, n: nat)
    requires node >= 1
    decreases Measure(leaves, node)
  {
    node >= leaves ||
    (n >= 2 && Splittable(leaves, 2 * node, Half(n)) && Splittable(leaves, 2 * node + 1, n / 2))
  }

  /** Node `node` stands `h` levels above the leaves of a full tree. */
  ghost predicate AtHeight(leaves: nat, node: nat, h: nat) {
    exists first: nat :: 1 <= first <= node < 2 * first && leaves == first * Pow(2, h)
  }

  lemma Regroup(a: nat, p: nat)
    requires p >= 1
    ensures a * (2 * p) == (2 * a) * p >= 2 * a
  {
    assert (2 * a) * p >= (2 * a) * 1;
  }

  lemma HeightStep(leaves: nat, node: nat, h: nat)
    requires AtHeight(leaves, node, h)
    ensures node >= 1
    ensures h == 0 ==> leaves <= node < 2 * leaves
    ensures h > 0 ==> node < leaves && AtHeight(leaves, 2 * node, h - 1) && AtHeight(leaves, 2 * node + 1, h - 1)
  {
    var first: nat :| 1 <= first <= node < 2 * first && leaves == first * Pow(2, h);
    if h > 0 {
      var p := Pow(2, h - 1);
      PowPositive(2, h - 1);
      var first' := 2 * first;
      Regroup(first, p);
      assert leaves == first' * p;
      assert 1 <= first' <= 2 * node < 2 * first' && 2 * node + 1 < 2 * first';
    } else {
      assert Pow(2, 0) == 1;
    }
  }

  /** Halving h times with ceilings (the sum is a ceiling division). */
  function CeilHalves(n: nat, h: nat): nat {
    if h == 0 then n else CeilHalves(Half(n), h - 1)
  }

  lemma DoubleBound(q: nat, p: nat, n: nat)
    requires Half(n) <= q * p < Half(n) + p
    ensures n <= q * (2 * p) < n + 2 * p
  {
    assert q * (2 * p) == 2 * (q * p);
  }

  function Half(n: nat): nat {
    (n + 1) / 2
  }

  lemma {:induction false} CeilHalvesBounds(n: nat, h: nat)
    ensures n <= CeilHalves(n, h) * Pow(2, h) < n + Pow(2, h)
  {
    if h == 0 {
      assert CeilHalves(n, 0) * Pow(2, 0) == n;
    } else {
      CeilHalvesBounds(Half(n), h - 1);
      DoubleBound(CeilHalves(n, h), Pow(2, h - 1), n);
    }
  }

  function FloorDiv(n: nat, d: nat): (q: nat)
    requires d > 0
    ensures q * d <= n < q * d + d
  {
    n / d
  }

  function CeilDiv(n: nat, d: nat): nat
    requires d > 0
  {
    FloorDiv(n + d - 1, d)
  }

  lemma CeilHalvesIsDivision(n: nat, h: nat)
    ensures Pow(2, h) > 0 && CeilHalves(n, h) == CeilDiv(n, Pow(2, h))
  {
    PowPositive(2, h);
    CeilHalvesBounds(n, h);
    var p, q := Pow(2, h), CeilHalves(n, h);
    Quotient(n + p - 1, p, q, n + p - 1 - q * p);
  }

  lemma {:induction false} CeilHalvesMonotone(m: nat, n: nat, h: nat)
    requires m <= n
    ensures CeilHalves(m, h) <= CeilHalves(n, h)
  {
    if h > 0 {
      CeilHalvesMonotone(Half(m), Half(n), h - 1);
    }
  }

  lemma LowerHalves(lo: nat, p: nat, n: nat)
    requires lo * (2 * p) <= n
    ensures lo * p <= n / 2 <= (n + 1) / 2
  {
    assert lo * (2 * p) == 2 * (lo * p);
  }

  /** Every leaf of a full tree gets the floor or the ceiling of its share. */
  lemma {:induction false} LeafSizesAreEven(leaves: nat, node: nat, h: nat, n: nat, lo: nat, hi: nat)
    requires AtHeight(leaves, node, h)
    requires lo * Pow(2, h) <= n && CeilHalves(n, h) <= hi
    ensures node >= 1 && LeafSizes(leaves, node, n, lo, hi)
    decreases h
  {
    HeightStep(leaves, node, h);
    if h > 0 {
      LowerHalves(lo, Pow(2, h - 1), n);
      CeilHalvesMonotone(n / 2, Half(n), h - 1);
      LeafSizesAreEven(leaves, 2 * node, h - 1, Half(n), lo, hi);
      LeafSizesAreEven(leaves, 2 * node + 1, h - 1, n / 2, lo, hi);
    } else {
      assert Pow(2, 0) == 1;
    }
  }

  /** A full tree can be split all the way down exactly when there are at least
      as many points as leaves. */
  lemma {:induction false} SplittableIff(leaves: nat, node: nat, h: nat, n: nat)
    requires AtHeight(leaves, node, h) && n >= 1
    ensures node >= 1 && (Splittable(leaves, node, n) <==> n >= Pow(2, h))
    decreases h
  {
    HeightStep(leaves, node, h);
    if h > 0 {
      PowPositive(2, h - 1);
      if n >= 2 {
        SplittableIff(leaves, 2 * node, h - 1, Half(n));
        SplittableIff(leaves, 2 * node + 1, h - 1, n / 2);
      }
    } else {
      assert Pow(2, 0) == 1;
    }
  }
}
