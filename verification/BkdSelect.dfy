/** The two orderings the tree builder asks of a slice of points. The builder
    relies on nothing but the contracts of `Select` and `HeapRadixSort`: a
    permutation that is partitioned around a position, or sorted. Their bodies
    stand for the radix selector and sorter of core/util/bkd, and a slice is the
    sequence of its points, wherever they are kept. */
module BkdSelect {
  import opened Bytes
  import opened BkdLayout

  /** The selector's order: the dimension's bytes, then the data dimensions,
      then the document number. */
  ghost predicate KeyLe(cfg: Config, dim: nat, p: Point, q: Point) {
    && cfg.Valid() && dim < cfg.numDims && IsPacked(cfg, p.packed) && IsPacked(cfg, q.packed)
    && (DimFits(dim, cfg.numDims, cfg.bytesPerDim);
        DataFits(cfg);
        var a, b := Coord(cfg, p.packed, dim), Coord(cfg, q.packed, dim);
        var c, d := DataOf(cfg, p.packed), DataOf(cfg, q.packed);
        a < b || (a == b && (c < d || (c == d && p.docID <= q.docID))))
  }

  ghost function DataOf(cfg: Config, p: seq<Byte>): nat
    requires cfg.PackedIndexBytesLength() <= |p|
  {
    Val(p[cfg.PackedIndexBytesLength()..])
  }

  /** The order as an argument: contracts speak of `le`, and only the lemmas that
      need to know what it is unfold `KeyLe`. */
  type Order = (nat, Point, Point) -> bool

  ghost predicate Comes(le: Order, dim: nat, p: Point, q: Point) {
    le(dim, p, q)
  }

  ghost predicate IsKeyOrder(cfg: Config, le: Order) {
    forall dim: nat, p: Point, q: Point {:trigger KeyLe(cfg, dim, p, q)} ::
      Comes(le, dim, p, q) <==> KeyLe(cfg, dim, p, q)
  }

  lemma KeyLeTransitive(cfg: Config, le: Order, dim: nat, p: Point, q: Point, r: Point)
    requires IsKeyOrder(cfg, le) && Comes(le, dim, p, q) && Comes(le, dim, q, r)
    ensures Comes(le, dim, p, r)
  {
    assert KeyLe(cfg, dim, p, q) && KeyLe(cfg, dim, q, r);
    assert KeyLe(cfg, dim, p, r);
  }

  predicate KeyLeExec(cfg: Config, dim: nat, p: Point, q: Point)
    requires cfg.Valid() && dim < cfg.numDims && IsPacked(cfg, p.packed) && IsPacked(cfg, q.packed)
    ensures KeyLeExec(cfg, dim, p, q) == KeyLe(cfg, dim, p, q)
  {
    DimFits(dim, cfg.numDims, cfg.bytesPerDim);
    DataFits(cfg);
    var a, b := Dim(p.packed, dim, cfg.bytesPerDim), Dim(q.packed, dim, cfg.bytesPerDim);
    var c, d := p.packed[cfg.PackedIndexBytesLength()..], q.packed[cfg.PackedIndexBytesLength()..];
    LexIsNumeric(a, b);
    LexIsNumeric(b, a);
    LexIsNumeric(c, d);
    LexIsNumeric(d, c);
    !LexLe(b, a) || (LexLe(a, b) && (!LexLe(d, c) || (LexLe(c, d) && p.docID <= q.docID)))
  }

  lemma DataFits(cfg: Config)
    requires cfg.Valid()
    ensures cfg.PackedIndexBytesLength() <= cfg.PackedBytesLength()
  {
  }

  ghost predicate AllPacked(cfg: Config, pts: seq<Point>) {
    forall p <- pts :: IsPacked(cfg, p.packed)
  }

  ghost predicate PartitionedAt(le: Order, dim: nat, left: seq<Point>, pivot: Point, right: seq<Point>) {
    && (forall p <- left :: Comes(le, dim, p, pivot))
    && (forall p <- right :: Comes(le, dim, pivot, p))
  }

  ghost predicate SortedBy(le: Order, dim: nat, pts: seq<Point>) {
    forall i, j | 0 <= i < j < |pts| :: Comes(le, dim, pts[i], pts[j])
  }

  lemma SameElements<T>(s: seq<T>, t: seq<T>)
    requires multiset(s) == multiset(t)
    ensures |s| == |t|
    ensures forall x :: x in s <==> x in t
  {
    assert |multiset(s)| == |s|;
    forall x ensures x in s <==> x in t {
      assert x in s <==> x in multiset(s);
      assert x in t <==> x in multiset(t);
    }
  }

  lemma AllPackedPermuted(cfg: Config, s: seq<Point>, t: seq<Point>)
    requires multiset(s) == multiset(t) && AllPacked(cfg, s)
    ensures AllPacked(cfg, t)
  {
    SameElements(s, t);
  }

  function Swapped<T>(s: seq<T>, i: nat, j: nat): seq<T>
    requires i < |s| && j < |s|
  {
    s[i := s[j]][j := s[i]]
  }

  lemma SwapPermutes<T>(s: seq<T>, i: nat, j: nat)
    requires i < |s| && j < |s|
    ensures multiset(Swapped(s, i, j)) == multiset(s)
  {
  }

  /** The first k elements are in place: each is at most everything after it. */
  ghost predicate InPlace(le: Order, dim: nat, s: seq<Point>, k: nat) {
    forall a, b | 0 <= a < k && a < b < |s| :: Comes(le, dim, s[a], s[b])
  }

  lemma SwapKeepsInPlace(cfg: Config, le: Order, dim: nat, s: seq<Point>, k: nat, m: nat)
    requires k <= m < |s| && AllPacked(cfg, s) && InPlace(le, dim, s, k)
    requires forall b | k <= b < |s| :: Comes(le, dim, s[m], s[b])
    ensures multiset(Swapped(s, k, m)) == multiset(s)
    ensures AllPacked(cfg, Swapped(s, k, m)) && InPlace(le, dim, Swapped(s, k, m), k + 1)
  {
    SwapPermutes(s, k, m);
    AllPackedPermuted(cfg, s, Swapped(s, k, m));
  }

  method FindLeast(cfg: Config, s: seq<Point>, i: nat, dim: nat, ghost le: Order) returns (least: nat)
    requires cfg.Valid() && dim < cfg.numDims && i < |s|
    requires IsKeyOrder(cfg, le) && AllPacked(cfg, s)
    ensures i <= least < |s|
    ensures forall b | i <= b < |s| :: Comes(le, dim, s[least], s[b])
  {
    assert forall b | 0 <= b < |s| :: s[b] in s;
    least := i;
    var j := i + 1;
    assert KeyLe(cfg, dim, s[i], s[i]);
    while j < |s|
      invariant i <= least < j <= |s|
      invariant forall b | i <= b < j :: KeyLe(cfg, dim, s[least], s[b])
    {
      if !KeyLeExec(cfg, dim, s[least], s[j]) {
        least := j;
      }
      j := j + 1;
    }
  }

  /** RadixSelector.HeapRadixSort: sorts the points of a leaf by one dimension. */
  method HeapRadixSort(cfg: Config, points: seq<Point>, dim: nat, ghost le: Order) returns (s: seq<Point>)
    requires cfg.Valid() && dim < cfg.numDims && IsKeyOrder(cfg, le) && AllPacked(cfg, points)
    ensures multiset(s) == multiset(points) && AllPacked(cfg, s)
    ensures SortedBy(le, dim, s)
  {
    s := points;
    var i := 0;
    while i < |s|
      invariant 0 <= i <= |s|
      invariant multiset(s) == multiset(points) && AllPacked(cfg, s) && InPlace(le, dim, s, i)
    {
      var least := FindLeast(cfg, s, i, dim, le);
      SwapKeepsInPlace(cfg, le, dim, s, i, least);
      s := Swapped(s, i, least);
      i := i + 1;
    }
  }

  /** RadixSelector.Select: rejects a partition point outside the slice, otherwise
      makes two slices of it around that point and tells the value the dimension
      has there. */
  method Select(cfg: Config, points: seq<Point>, mid: nat, dim: nat, ghost le: Order)
    returns (r: Option<(seq<Point>, seq<Point>, seq<Byte>)>)
    requires cfg.Valid() && dim < cfg.numDims && IsKeyOrder(cfg, le) && AllPacked(cfg, points)
    ensures r.Some? <==> mid < |points|
    ensures r.Some? ==>
              var (left, right, value) := r.value;
              && |left| == mid && multiset(left + right) == multiset(points)
              && AllPacked(cfg, left) && AllPacked(cfg, right)
              && IsPivot(cfg, le, dim, left, right, value)
  {
    if |points| <= mid {
      return None;
    }
    var s := HeapRadixSort(cfg, points, dim, le);
    SameElements(s, points);
    DimFits(dim, cfg.numDims, cfg.bytesPerDim);
    assert s[mid] in s && KeyLe(cfg, dim, s[mid], s[mid]);
    assert s[..mid] + s[mid..] == s;
    assert PartitionedAt(le, dim, s[..mid], s[mid], s[mid..]) && s[mid..][0] == s[mid];
    return Some((s[..mid], s[mid..], Dim(s[mid].packed, dim, cfg.bytesPerDim)));
  }

  /** `value` is the value of a point on the right that separates the two slices. */
  ghost predicate IsPivot(cfg: Config, le: Order, dim: nat, left: seq<Point>, right: seq<Point>, value: seq<Byte>) {
    exists pivot: Point ::
      && pivot in right
      && IsPacked(cfg, pivot.packed) && dim * cfg.bytesPerDim + cfg.bytesPerDim <= |pivot.packed|
      && value == Dim(pivot.packed, dim, cfg.bytesPerDim)
      && PartitionedAt(le, dim, left, pivot, right)
  }
}
