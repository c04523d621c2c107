/** Points buffered in pages, and the view that a flush sorts
    (core/index/pointvalueswriter.go). */
module PointValues {
  import opened Bytes
  import opened PagedBytes

  /** The value and document of a point. */
  datatype Point = Point(value: seq<Byte>, docID: nat)

  function ValuesOf(points: seq<Point>): (s: seq<seq<Byte>>)
    ensures |s| == |points|
  {
    seq(|points|, i requires 0 <= i < |points| => points[i].value)
  }

  function DocsOf(points: seq<Point>): set<nat> {
    if points == [] then {} else DocsOf(points[..|points| - 1]) + {points[|points| - 1].docID}
  }

  /** Points arrive in the order of their documents. */
  ghost predicate DocsAscend(points: seq<Point>) {
    forall i, j | 0 <= i <= j < |points| :: points[i].docID <= points[j].docID
  }

  ghost predicate Sized(points: seq<Point>, size: nat) {
    forall i | 0 <= i < |points| :: |points[i].value| == size
  }

  const BlockSize := 0x1_0000

  class PointValuesWriter {
    const bytes: PagedBytes
    const packedBytesLength: nat
    var docIDs: seq<nat>
    var numPoints: nat
    var numDocs: nat
    var lastDocID: nat
    ghost var points: seq<Point>

    ghost predicate Valid()
      reads this, bytes
    {
      && Counted() && bytes.blockSize == BlockSize && bytes.Valid() && bytes.Contents() == Flat(ValuesOf(points))
    }

    /** The counts and the documents of the points so far: document 0, which the writer
        takes for the last one before it begins, is never counted. */
    ghost predicate Counted()
      reads this
    {
      && 0 < packedBytesLength <= BlockSize && Sized(points, packedBytesLength)
      && numPoints == |points| == |docIDs| && (forall i | 0 <= i < |points| :: docIDs[i] == points[i].docID)
      && lastDocID == LastDoc(points)
      && (DocsAscend(points) ==> numDocs == |DocsOf(points) - {0}|)
    }

    /** NewPointValuesWriter. */
    constructor (packedBytesLength: nat)
      requires 0 < packedBytesLength <= BlockSize
      ensures Valid() && points == [] && this.packedBytesLength == packedBytesLength && fresh(bytes)
    {
      this.packedBytesLength := packedBytesLength;
      bytes := new PagedBytes(BlockSize);
      docIDs, numPoints, numDocs, lastDocID, points := [], 0, 0, 0, [];
    }

    method AddPackedValue(docID: nat, value: seq<Byte>) returns (ok: bool)
      requires Valid()
      modifies this, bytes
      ensures Valid() && ok == (|value| == packedBytesLength)
      ensures points == if ok then old(points) + [Point(value, docID)] else old(points)
    {
      hide Flat, DocsOf, DocsAscend, ValuesOf;
      if |value| != packedBytesLength {
        return false;
      }
      ghost var before, values := points, ValuesOf(points);
      bytes.Write(value);
      docIDs := docIDs + [docID];
      if docID != lastDocID {
        numDocs := numDocs + 1;
        lastDocID := docID;
      }
      numPoints := numPoints + 1;
      points := points + [Point(value, docID)];
      FlatOne(values, value);
      OneMoreValue(before, Point(value, docID));
      OneMoreDoc(before, Point(value, docID));
      return true;
    }

    /** Flush: the view of all points in the order of their arrival. */
    method Flush() returns (view: MutablePointValues)
      requires Valid()
      modifies bytes
      ensures fresh(view) && view.Valid() && view.points == points && view.View() == points
      ensures view.numPoints == |points| && view.numDocs == numDocs
      ensures DocsAscend(points) ==> view.numDocs == |DocsOf(points) - {0}|
      ensures DocsAscend(points) ==> (view.numDocs == |DocsOf(points)| <==> 0 !in DocsOf(points))
      ensures Counted() && points == old(points) && bytes.frozen
    {
      var r := bytes.Freeze(false);
      view := new MutablePointValues(r.value, this, points);
      view.InOrder();
      ZeroUncounted(DocsOf(points));
    }
  }

  lemma ZeroUncounted(docs: set<nat>)
    ensures |docs - {0}| == |docs| - if 0 in docs then 1 else 0
  {
    if 0 !in docs {
      assert docs - {0} == docs;
    }
  }

  function LastDoc(points: seq<Point>): nat {
    if points == [] then 0 else points[|points| - 1].docID
  }

  lemma {:induction false} DocsUpToLast(points: seq<Point>)
    requires DocsAscend(points)
    ensures forall d <- DocsOf(points) :: d <= LastDoc(points)
    ensures points != [] ==> LastDoc(points) in DocsOf(points)
  {
    if points != [] {
      DocsUpToLast(points[..|points| - 1]);
    }
  }

  lemma OneMoreValue(points: seq<Point>, p: Point)
    ensures ValuesOf(points + [p]) == ValuesOf(points) + [p.value]
  {
  }

  lemma OneMoreDoc(points: seq<Point>, p: Point)
    ensures DocsAscend(points + [p]) ==>
              && DocsAscend(points)
              && |DocsOf(points + [p]) - {0}| == |DocsOf(points) - {0}| + if p.docID == LastDoc(points) then 0 else 1
  {
    var points' := points + [p];
    if DocsAscend(points') {
      assert points'[..|points|] == points;
      assert DocsAscend(points) by {
        assert forall i | 0 <= i < |points| :: points'[i] == points[i];
      }
      DocsUpToLast(points);
      assert points != [] ==> points'[|points| - 1].docID <= points'[|points|].docID;
      NewDoc(DocsOf(points), LastDoc(points), p.docID, points == []);
    }
  }

  lemma NewDoc(docs: set<nat>, last: nat, doc: nat, first: bool)
    requires last <= doc && (forall d <- docs :: d <= last) && (if first then docs == {} && last == 0 else last in docs)
    ensures |docs + {doc} - {0}| == |docs - {0}| + if doc == last then 0 else 1
  {
    var before, after := docs - {0}, docs + {doc} - {0};
    if doc != last {
      assert doc !in docs && doc != 0;
      assert after == before + {doc};
    } else if first {
      assert after == {} == before;
    } else {
      assert docs + {doc} == docs;
    }
  }

  /** A rearrangement of the numbers below n. */
  ghost predicate Permutation(ords: seq<nat>, n: nat) {
    && |ords| == n && (forall i | 0 <= i < n :: ords[i] < n)
    && forall i, j | 0 <= i < j < n :: ords[i] != ords[j]
  }

  /** The points in the order of `ords`. */
  ghost function Viewed(points: seq<Point>, ords: seq<nat>): (v: seq<Point>)
    requires forall i | 0 <= i < |ords| :: ords[i] < |points|
    ensures |v| == |ords|
  {
    seq(|ords|, i requires 0 <= i < |ords| => points[ords[i]])
  }

  /** A permuted view shows every point as often as it was added. */
  lemma {:induction false} ViewIsPermutation(points: seq<Point>, ords: seq<nat>, n: nat)
    requires Permutation(ords, n) && n <= |points|
    ensures multiset(Viewed(points, ords)) == multiset(points[..n])
  {
    if n > 0 {
      var i := FindOrd(ords, n);
      var rest := ords[..i] + ords[i + 1..];
      ViewIsPermutation(points, rest, n - 1);
      var v, w := Viewed(points, ords), Viewed(points, rest);
      assert v == w[..i] + [points[n - 1]] + w[i..];
      assert w == w[..i] + w[i..];
      assert points[..n] == points[..n - 1] + [points[n - 1]];
    } else {
      assert Viewed(points, ords) == points[..0] == [];
    }
  }

  /** The largest number stands somewhere, and the others are a permutation without it. */
  lemma FindOrd(ords: seq<nat>, n: nat) returns (i: nat)
    requires Permutation(ords, n) && n > 0
    ensures i < n && ords[i] == n - 1
    ensures Permutation(ords[..i] + ords[i + 1..], n - 1)
  {
    SomeLargest(ords, n);
    i :| 0 <= i < n && ords[i] >= n - 1;
    var rest := ords[..i] + ords[i + 1..];
    forall j | 0 <= j < n - 1 ensures rest[j] < n - 1 {
      assert rest[j] == ords[if j < i then j else j + 1];
    }
  }

  function Set(s: seq<nat>): (r: set<nat>) {
    set x <- s
  }

  lemma {:induction false} SetSize(s: seq<nat>)
    requires forall i, j | 0 <= i < j < |s| :: s[i] != s[j]
    ensures |Set(s)| == |s|
  {
    if s != [] {
      var n := |s| - 1;
      SetSize(s[..n]);
      assert s == s[..n] + [s[n]];
      assert Set(s) == Set(s[..n]) + {s[n]};
      assert s[n] !in s[..n];
    }
  }

  lemma {:induction false} SetBound(s: set<nat>, n: nat)
    requires forall x <- s :: x < n
    ensures |s| <= n
  {
    if n > 0 {
      SetBound(s - {n - 1}, n - 1);
    } else {
      assert s == {};
    }
  }

  lemma SomeLargest(ords: seq<nat>, n: nat)
    requires Permutation(ords, n) && n > 0
    ensures exists i :: 0 <= i < n && ords[i] >= n - 1
  {
    SetSize(ords);
    if forall x <- Set(ords) :: x < n - 1 {
      SetBound(Set(ords), n - 1);
    }
  }

  /** The i-th value stands at i times the size. */
  lemma ValueAt(points: seq<Point>, size: nat, i: nat)
    requires Sized(points, size) && i < |points|
    ensures At(Flat(ValuesOf(points)), size * i, points[i].value)
  {
    var values := ValuesOf(points);
    assert Uniform(values[..i], size);
    UniformSize(values[..i], size);
    assert At(Flat(values), 0, Flat(values));
    AtFlat(Flat(values), 0, values, i);
    assert i * size == size * i;
  }

  /** The view that a flush hands to the index writer, which may rearrange it. */
  class MutablePointValues {
    const bytesReader: PagedBytesReader
    const pw: PointValuesWriter
    const numDocs: nat
    const numPoints: nat
    var ords: seq<nat>
    var temp: seq<nat>
    ghost const points: seq<Point>

    ghost predicate Valid()
      reads this, pw
    {
      && Permutation(ords, |points|) && Stored()
    }

    /** The pages and the writer hold the points. */
    ghost predicate Stored()
      reads pw
    {
      && numPoints == |points| && Sized(points, pw.packedBytesLength)
      && 0 < pw.packedBytesLength <= BlockSize == bytesReader.blockSize
      && Holds(bytesReader.blocks, BlockSize, Flat(ValuesOf(points)))
      && |points| <= |pw.docIDs| && forall i | 0 <= i < |points| :: pw.docIDs[i] == points[i].docID
    }

    /** The points as they are seen. */
    ghost function View(): seq<Point>
      reads this
      requires Permutation(ords, |points|)
    {
      Viewed(points, ords)
    }

    constructor (bytesReader: PagedBytesReader, pw: PointValuesWriter, ghost points: seq<Point>)
      ensures this.bytesReader == bytesReader && this.pw == pw && numDocs == pw.numDocs && numPoints == pw.numPoints
      ensures this.points == points && ords == seq(numPoints, i => i) && temp == []
    {
      this.bytesReader, this.pw, numDocs, numPoints := bytesReader, pw, pw.numDocs, pw.numPoints;
      this.points, ords, temp := points, seq(pw.numPoints, i => i), [];
    }

    lemma InOrder()
      requires ords == seq(|points|, i => i)
      ensures Permutation(ords, |points|) && View() == points
    {
    }

    /** The view always shows every point as often as it was added. */
    lemma ShowsAll()
      requires Valid()
      ensures multiset(View()) == multiset(points)
    {
      ViewIsPermutation(points, ords, |points|);
      assert points[..|points|] == points;
    }

    method GetValue(i: nat) returns (value: Option<seq<Byte>>)
      requires Valid() && i < numPoints
      ensures value == Some(View()[i].value)
    {
      hide Holds, Flat;
      var offset := pw.packedBytesLength * ords[i];
      ValueAt(points, pw.packedBytesLength, ords[i]);
      FillSliceIsFlat(bytesReader, Flat(ValuesOf(points)), offset, pw.packedBytesLength);
      return bytesReader.FillSlice(offset, pw.packedBytesLength);
    }

    method GetByteAt(i: nat, k: nat) returns (value: Option<Byte>)
      requires Valid() && i < numPoints && k < pw.packedBytesLength
      ensures value == Some(View()[i].value[k])
    {
      hide Holds, Flat;
      var offset := pw.packedBytesLength * ords[i] + k;
      ValueAt(points, pw.packedBytesLength, ords[i]);
      AtElement(Flat(ValuesOf(points)), pw.packedBytesLength * ords[i], points[ords[i]].value, k);
      GetByteIsFlat(bytesReader, Flat(ValuesOf(points)), offset);
      return bytesReader.GetByte(offset);
    }

    function GetDocID(i: nat): (docID: nat)
      reads this, pw
      requires Valid() && i < numPoints
      ensures docID == View()[i].docID
    {
      pw.docIDs[ords[i]]
    }

    method Swap(i: nat, j: nat)
      requires Valid() && i < numPoints && j < numPoints
      modifies this`ords
      ensures Valid() && View() == old(View())[i := old(View())[j]][j := old(View())[i]]
    {
      ords := ords[i := ords[j]][j := ords[i]];
    }

    method Save(i: nat, j: nat)
      requires i < |ords| && j < |ords| && (temp != [] ==> |temp| == |ords|)
      modifies this`temp
      ensures temp == (if old(temp) == [] then seq(|ords|, _ => 0) else old(temp))[j := ords[i]]
    {
      if |temp| == 0 {
        temp := seq(|ords|, _ => 0);
      }
      temp := temp[j := ords[i]];
    }

    /** Restore: of the range from i until j it copies only what lies before j - i, and
        fails when that is before i; with something saved, it puts the whole range back exactly when the rest
        was not changed. */
    method Restore(i: nat, j: nat) returns (ok: bool)
      requires i <= j <= |ords| && (temp == [] || |temp| == |ords|)
      modifies this`ords
      ensures ok <==> temp == [] || 2 * i <= j
      ensures !ok || temp == [] ==> ords == old(ords)
      ensures |ords| == |old(ords)| && ords[..i] == old(ords)[..i] && ords[j..] == old(ords)[j..]
      ensures ok && temp != [] ==> (ords[i..j] == temp[i..j] <==> old(ords)[j - i..j] == temp[j - i..j])
    {
      if |temp| != 0 {
        if j - i < i {
          return false;
        }
        ghost var before := ords;
        ords := ords[..i] + temp[i..j - i] + ords[j - i..];
        assert ords[j - i..j] == before[j - i..j] && ords[i..j - i] == temp[i..j - i];
        assert ords[i..j] == ords[i..j - i] + ords[j - i..j] && temp[i..j] == temp[i..j - i] + temp[j - i..j];
      }
      return true;
    }

    /** Intersect: every point is visited, as it is seen. */
    method Intersect() returns (visited: seq<Point>)
      requires Valid()
      ensures visited == View()
    {
      visited := [];
      var i := 0;
      while i < numPoints
        invariant 0 <= i <= numPoints && visited == View()[..i]
      {
        var value := GetValue(i);
        visited := visited + [Point(value.value, GetDocID(i))];
        i := i + 1;
      }
    }
  }

  /** A writer with these points. */
  method AddAll(packedBytesLength: nat, points: seq<Point>) returns (pw: PointValuesWriter)
    requires 0 < packedBytesLength <= BlockSize && Sized(points, packedBytesLength)
    ensures fresh(pw) && fresh(pw.bytes) && pw.Valid() && pw.points == points
  {
    hide Flat, DocsOf, PointValuesWriter.Valid;
    pw := new PointValuesWriter(packedBytesLength);
    var i := 0;
    while i < |points|
      invariant 0 <= i <= |points| && pw.Valid() && pw.points == points[..i]
                && pw.packedBytesLength == packedBytesLength
      invariant fresh(pw) && fresh(pw.bytes)
    {
      var _ := pw.AddPackedValue(points[i].docID, points[i].value);
      assert points[..i + 1] == points[..i] + [points[i]];
      i := i + 1;
    }
    assert points[..i] == points;
  }

  /** Any points added, any swaps: the view shows all the points, and the number of
      documents is right exactly when there is none for document 0. */
  method AddAndSwap(packedBytesLength: nat, points: seq<Point>, swaps: seq<(nat, nat)>)
    returns (view: MutablePointValues)
    requires 0 < packedBytesLength <= BlockSize && Sized(points, packedBytesLength)
    requires forall k | 0 <= k < |swaps| :: swaps[k].0 < |points| && swaps[k].1 < |points|
    ensures view.Valid() && view.points == points && multiset(view.View()) == multiset(points)
    ensures DocsAscend(points) ==> (view.numDocs == |DocsOf(points)| <==> 0 !in DocsOf(points))
  {
    hide Flat, DocsOf, Permutation, PointValuesWriter.Valid, MutablePointValues.Stored;
    var pw := AddAll(packedBytesLength, points);
    view := pw.Flush();
    var k := 0;
    while k < |swaps|
      invariant 0 <= k <= |swaps| && view.Valid() && fresh(view) && view.numPoints == |points|
    {
      view.Swap(swaps[k].0, swaps[k].1);
      k := k + 1;
    }
    view.ShowsAll();
  }

  /** What is added is what a visitor of the flushed view sees. */
  method AddAndVisit(packedBytesLength: nat, points: seq<Point>) returns (visited: seq<Point>, numDocs: nat)
    requires 0 < packedBytesLength <= BlockSize && Sized(points, packedBytesLength)
    ensures visited == points
    ensures DocsAscend(points) ==> numDocs == |DocsOf(points) - {0}|
  {
    hide Flat, DocsOf, Permutation, PointValuesWriter.Valid, MutablePointValues.Stored;
    var pw := AddAll(packedBytesLength, points);
    var view := pw.Flush();
    numDocs := view.numDocs;
    visited := view.Intersect();
  }
}
