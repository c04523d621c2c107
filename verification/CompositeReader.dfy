/** Document numbers across nested readers (core/index/compositereader.go,
    readerutil.go). */
module CompositeReader {
  import opened Bytes

  // Prefix sums

  function Sum(s: seq<nat>): nat {
    if s == [] then 0 else Sum(s[..|s| - 1]) + s[|s| - 1]
  }

  lemma {:induction false} SumConcat(a: seq<nat>, b: seq<nat>)
    ensures Sum(a + b) == Sum(a) + Sum(b)
  {
    if b == [] {
      assert a + b == a;
    } else {
      var n := |b| - 1;
      SumConcat(a, b[..n]);
      assert (a + b)[..|a + b| - 1] == a + b[..n];
    }
  }

  lemma SumNext(s: seq<nat>, i: nat)
    requires i < |s|
    ensures Sum(s[..i + 1]) == Sum(s[..i]) + s[i]
  {
    assert s[..i + 1][..i] == s[..i];
  }

  lemma {:induction false} SumGrows(s: seq<nat>, i: nat, j: nat)
    requires i <= j <= |s|
    ensures Sum(s[..i]) <= Sum(s[..j])
    decreases j
  {
    if i < j {
      SumGrows(s, i, j - 1);
      SumNext(s, j - 1);
    }
  }

  // Readers

  datatype Reader = Leaf(id: int, maxDoc: nat) | Composite(subReaders: seq<Reader>, starts: seq<nat>, maxDoc: nat)

  function MaxDocs(rs: seq<Reader>): (s: seq<nat>)
    ensures |s| == |rs|
  {
    seq(|rs|, i requires 0 <= i < |rs| => rs[i].maxDoc)
  }

  /** The starts are the sums of what stands before. */
  ghost predicate StartsRight(rs: seq<Reader>, starts: seq<nat>, maxDoc: nat) {
    && |starts| == |rs| + 1 && maxDoc == Sum(MaxDocs(rs))
    && forall i | 0 <= i <= |rs| :: starts[i] == Sum(MaxDocs(rs)[..i])
  }

  /** A reader as the constructors make it. */
  ghost predicate Valid(r: Reader) {
    match r
    case Leaf(_, _) => true
    case Composite(rs, starts, maxDoc) => StartsRight(rs, starts, maxDoc) && forall x <- rs :: Valid(x)
  }

  /** newBaseCompositeReader: an error when there are more documents than allowed. */
  method NewCompositeReader(subReaders: seq<Reader>, maxDocs: nat) returns (r: Option<Reader>)
    requires forall x <- subReaders :: Valid(x)
    ensures r.Some? <==> Sum(MaxDocs(subReaders)) <= maxDocs
    ensures r.Some? ==> r.value.Composite? && Valid(r.value) && r.value.subReaders == subReaders
  {
    var starts := new nat[|subReaders| + 1](_ => 0);
    var maxDoc := 0;
    ghost var sizes := MaxDocs(subReaders);
    var i := 0;
    while i < |subReaders|
      invariant 0 <= i <= |subReaders| && maxDoc == Sum(sizes[..i])
      invariant forall k | 0 <= k < i :: starts[k] == Sum(sizes[..k])
    {
      starts[i] := maxDoc;
      SumNext(sizes, i);
      maxDoc := maxDoc + subReaders[i].maxDoc;
      i := i + 1;
    }
    assert sizes[..i] == sizes;
    if maxDoc > maxDocs {
      return None;
    }
    starts[|subReaders|] := maxDoc;
    return Some(Composite(subReaders, starts[..], maxDoc));
  }

  // Dispatch

  ghost predicate Ascending(s: seq<nat>) {
    forall i, j | 0 <= i <= j < |s| :: s[i] <= s[j]
  }

  /** SubIndex: the last start that is not beyond n, of several equal ones the last. */
  method SubIndex(n: nat, docStarts: seq<nat>) returns (r: int)
    requires Ascending(docStarts)
    ensures -1 <= r < |docStarts|
    ensures forall k | 0 <= k <= r :: docStarts[k] <= n
    ensures forall k | r < k < |docStarts| :: n < docStarts[k]
  {
    var size := |docStarts|;
    var lo, hi := 0, size - 1;
    while hi >= lo
      invariant 0 <= lo <= hi + 1 <= size
      invariant forall k | 0 <= k < lo :: docStarts[k] < n
      invariant forall k | hi < k < size :: n < docStarts[k]
    {
      var mid := (lo + hi) / 2;
      var midValue := docStarts[mid];
      if n < midValue {
        hi := mid - 1;
      } else if n > midValue {
        lo := mid + 1;
      } else {
        while mid + 1 < size && docStarts[mid + 1] == midValue
          invariant 0 <= mid < size && docStarts[mid] == midValue
        {
          mid := mid + 1;
        }
        return mid;
      }
    }
    return hi;
  }

  lemma StartsAscend(rs: seq<Reader>, starts: seq<nat>, maxDoc: nat)
    requires StartsRight(rs, starts, maxDoc)
    ensures Ascending(starts)
  {
    forall i: nat, j: nat | i <= j < |starts| ensures starts[i] <= starts[j] {
      SumGrows(MaxDocs(rs), i, j);
    }
  }

  // The flat list of leaves

  function Leaves(r: Reader): seq<Reader> {
    match r
    case Leaf(_, _) => [r]
    case Composite(rs, _, _) => AllLeaves(rs)
  }

  function AllLeaves(rs: seq<Reader>): seq<Reader> {
    if rs == [] then [] else AllLeaves(rs[..|rs| - 1]) + Leaves(rs[|rs| - 1])
  }

  /** The number of documents before the k-th leaf. */
  ghost function Base(leaves: seq<Reader>, k: nat): nat
    requires k <= |leaves|
  {
    Sum(MaxDocs(leaves)[..k])
  }

  lemma BaseNext(leaves: seq<Reader>, k: nat)
    requires k < |leaves|
    ensures Base(leaves, k + 1) == Base(leaves, k) + leaves[k].maxDoc
  {
    SumNext(MaxDocs(leaves), k);
  }

  /** The k-th leaf holds document `doc` as its document `local`. */
  ghost predicate Holds(leaves: seq<Reader>, k: nat, local: nat, doc: nat) {
    k < |leaves| && local < leaves[k].maxDoc && doc == Base(leaves, k) + local
  }

  /** A document is in one leaf only, at one place. */
  lemma HeldOnce(leaves: seq<Reader>, k: nat, local: nat, k': nat, local': nat, doc: nat)
    requires Holds(leaves, k, local, doc) && Holds(leaves, k', local', doc)
    ensures k == k' && local == local'
  {
    BaseNext(leaves, k);
    BaseNext(leaves, k');
    if k < k' {
      SumGrows(MaxDocs(leaves), k + 1, k');
    } else if k' < k {
      SumGrows(MaxDocs(leaves), k' + 1, k);
    }
  }

  lemma BaseConcat(a: seq<Reader>, b: seq<Reader>, k: nat)
    requires k <= |b|
    ensures Base(a + b, |a| + k) == Base(a, |a|) + Base(b, k)
    ensures k <= |a| ==> Base(a + b, k) == Base(a, k)
  {
    SumConcat(MaxDocs(a), MaxDocs(b)[..k]);
    assert MaxDocs(a + b)[..|a| + k] == MaxDocs(a) + MaxDocs(b)[..k];
    assert MaxDocs(a)[..|a|] == MaxDocs(a);
    if k <= |a| {
      assert MaxDocs(a + b)[..k] == MaxDocs(a)[..k];
    }
  }

  /** A reader has as many documents as its leaves together. */
  lemma {:induction false} LeavesSum(r: Reader)
    requires Valid(r)
    ensures Base(Leaves(r), |Leaves(r)|) == r.maxDoc
    decreases r, 1
  {
    match r
    case Leaf(_, maxDoc) =>
      assert MaxDocs(Leaves(r))[..1] == [maxDoc];
      SumOne(maxDoc);
    case Composite(rs, _, _) =>
      AllLeavesSum(rs, |rs|);
      assert MaxDocs(rs)[..|rs|] == MaxDocs(rs) && rs[..|rs|] == rs;
  }

  lemma SumOne(n: nat)
    ensures Sum([n]) == n
  {
    assert Sum([n][..0]) == 0;
  }

  lemma {:induction false} AllLeavesSum(rs: seq<Reader>, n: nat)
    requires n <= |rs| && forall x <- rs :: Valid(x)
    ensures Base(AllLeaves(rs[..n]), |AllLeaves(rs[..n])|) == Sum(MaxDocs(rs)[..n])
    decreases rs, 0, n
  {
    if n > 0 {
      AllLeavesSum(rs, n - 1);
      LeavesSum(rs[n - 1]);
      assert rs[..n][..n - 1] == rs[..n - 1];
      BaseConcat(AllLeaves(rs[..n - 1]), Leaves(rs[n - 1]), |Leaves(rs[n - 1])|);
      SumNext(MaxDocs(rs), n - 1);
    } else {
      assert rs[..0] == [];
    }
  }

  lemma {:induction false} AllLeavesSplit(rs: seq<Reader>, i: nat)
    requires i < |rs|
    ensures AllLeaves(rs) == AllLeaves(rs[..i]) + Leaves(rs[i]) + AllLeaves(rs[i + 1..])
  {
    var n := |rs| - 1;
    if i == n {
      assert rs[i + 1..] == [];
    } else {
      AllLeavesSplit(rs[..n], i);
      assert rs[..n][..i] == rs[..i] && rs[..n][i + 1..] == rs[i + 1..n];
      assert rs[i + 1..][..|rs[i + 1..]| - 1] == rs[i + 1..n];
      Associate(AllLeaves(rs[..i]) + Leaves(rs[i]), AllLeaves(rs[i + 1..n]), Leaves(rs[n]));
    }
  }

  /** What a sub-reader holds at a place, the whole holds that many documents on. */
  lemma HeldBySub(r: Reader, i: nat, k: nat, local: nat, doc: nat)
    requires Valid(r) && r.Composite? && i < |r.subReaders| && Holds(Leaves(r.subReaders[i]), k, local, doc)
    ensures var k' := |AllLeaves(r.subReaders[..i])| + k;
            Holds(Leaves(r), k', local, r.starts[i] + doc) && Leaves(r)[k'] == Leaves(r.subReaders[i])[k]
  {
    hide Leaves, AllLeaves, Base;
    var rs := r.subReaders;
    var a, b, c := AllLeaves(rs[..i]), Leaves(rs[i]), AllLeaves(rs[i + 1..]);
    AllLeavesSplit(rs, i);
    AllLeavesSum(rs, i);
    CompositeLeaves(r);
    BaseConcat(a, b + c, k);
    BaseConcat(b, c, 0);
    BaseOfPrefix(b, c, k);
    Associate(a, b, c);
  }

  lemma CompositeLeaves(r: Reader)
    requires r.Composite?
    ensures Leaves(r) == AllLeaves(r.subReaders)
  {
  }

  lemma BaseOfPrefix(b: seq<Reader>, c: seq<Reader>, k: nat)
    requires k <= |b|
    ensures Base(b + c, k) == Base(b, k)
  {
    assert MaxDocs(b + c)[..k] == MaxDocs(b)[..k];
  }

  /** DocumentWithVisitor: dispatch by the starts, level by level, ends at the leaf
      that the flat list gives for the document, and at the same place. */
  method Dispatch(r: Reader, docID: int) returns (found: Option<(Reader, nat)>, ghost k: nat)
    requires Valid(r)
    ensures found.Some? <==> 0 <= docID < r.maxDoc
    ensures found.Some? ==> Holds(Leaves(r), k, found.value.1, docID) && Leaves(r)[k] == found.value.0
    decreases r
  {
    k := 0;
    if docID < 0 || docID >= r.maxDoc {
      return None, k;
    }
    match r
    case Leaf(_, _) =>
      FirstBase(r);
      return Some((r, docID)), 0;
    case Composite(rs, starts, maxDoc) =>
      StartsAscend(rs, starts, maxDoc);
      FirstAndLast(rs, starts, maxDoc);
      var i := SubIndex(docID, starts);
      SumNext(MaxDocs(rs), i);
      found, k := Dispatch(rs[i], docID - starts[i]);
      HeldBySub(r, i, k, found.value.1, docID - starts[i]);
      k := |AllLeaves(rs[..i])| + k;
  }

  lemma FirstBase(r: Reader)
    requires r.Leaf?
    ensures Leaves(r) == [r] && Base(Leaves(r), 0) == 0
  {
  }

  lemma FirstAndLast(rs: seq<Reader>, starts: seq<nat>, maxDoc: nat)
    requires StartsRight(rs, starts, maxDoc)
    ensures starts[0] == 0 && starts[|rs|] == maxDoc
  {
    assert MaxDocs(rs)[..|rs|] == MaxDocs(rs) && MaxDocs(rs)[..0] == [];
  }

  /** Global numbers and places in leaves correspond one to one: every place of every
      leaf has the number the list gives it, and dispatch leads back to it. */
  lemma PlacesHaveNumbers(r: Reader, k: nat, local: nat)
    requires Valid(r) && k < |Leaves(r)| && local < Leaves(r)[k].maxDoc
    ensures Holds(Leaves(r), k, local, Base(Leaves(r), k) + local) && Base(Leaves(r), k) + local < r.maxDoc
  {
    hide Leaves;
    LeavesSum(r);
    BaseNext(Leaves(r), k);
    SumGrows(MaxDocs(Leaves(r)), k + 1, |Leaves(r)|);
  }

  method DispatchBack(r: Reader, ghost k: nat, ghost local: nat, docID: nat) returns (found: Option<(Reader, nat)>)
    requires Valid(r) && k < |Leaves(r)| && local < Leaves(r)[k].maxDoc && docID == Base(Leaves(r), k) + local
    ensures found == Some((Leaves(r)[k], local))
  {
    ghost var k';
    PlacesHaveNumbers(r, k, local);
    found, k' := Dispatch(r, docID);
    HeldOnce(Leaves(r), k, local, k', found.value.1, docID);
  }

  // The flat list as it is built

  datatype LeafContext = LeafContext(leaf: Reader, ordInParent: nat, docBaseInParent: nat, ord: nat, docBase: nat)

  /** `p` is `r` or stands somewhere under it. */
  ghost predicate Within(p: Reader, r: Reader) {
    p == r || (r.Composite? && exists x <- r.subReaders :: Within(p, x))
  }

  /** The context says which child of `p` the leaf is, and how many documents the
      children before it have. */
  ghost predicate ChildOf(p: Reader, c: LeafContext) {
    && p.Composite? && c.ordInParent < |p.subReaders| && p.subReaders[c.ordInParent] == c.leaf
    && c.docBaseInParent == Sum(MaxDocs(p.subReaders)[..c.ordInParent])
  }

  ghost predicate PlacedUnder(c: LeafContext, r: Reader) {
    exists p :: Within(p, r) && ChildOf(p, c)
  }

  /** The leaf is `r` itself, standing where its parent says, or has its parent under `r`. */
  ghost predicate Placed(c: LeafContext, r: Reader, ord: nat, docBase: nat) {
    (r.Leaf? && c.leaf == r && c.ordInParent == ord && c.docBaseInParent == docBase) || PlacedUnder(c, r)
  }

  lemma PlacedInWhole(c: LeafContext, r: Reader, i: nat)
    requires r.Composite? && i < |r.subReaders|
    requires Placed(c, r.subReaders[i], i, Sum(MaxDocs(r.subReaders)[..i]))
    ensures PlacedUnder(c, r)
  {
    if PlacedUnder(c, r.subReaders[i]) {
      var p :| Within(p, r.subReaders[i]) && ChildOf(p, c);
      assert Within(p, r);
    } else {
      assert Within(r, r) && ChildOf(r, c);
    }
  }

  lemma AllPlacedInWhole(cs: seq<LeafContext>, from: nat, r: Reader, i: nat)
    requires r.Composite? && i < |r.subReaders|
    requires forall k | from <= k < |cs| :: Placed(cs[k], r.subReaders[i], i, Sum(MaxDocs(r.subReaders)[..i]))
    ensures forall k | from <= k < |cs| :: PlacedUnder(cs[k], r)
  {
    forall k | from <= k < |cs| ensures PlacedUnder(cs[k], r) {
      PlacedInWhole(cs[k], r, i);
    }
  }

  class CompositeReaderBuilder {
    var leaves: seq<LeafContext>
    var leafDocBase: nat

    /** So far, the contexts are those of these leaves. */
    ghost predicate Lists(flat: seq<Reader>)
      reads this
    {
      && |leaves| == |flat| && leafDocBase == Base(flat, |flat|)
      && forall k | 0 <= k < |flat| ::
           leaves[k].leaf == flat[k] && leaves[k].ord == k && leaves[k].docBase == Base(flat, k)
    }

    constructor ()
      ensures Lists([])
    {
      leaves, leafDocBase := [], 0;
    }

    /** build: appends the leaves under a reader, each with its number and the number
        of documents before it, in the whole and in its parent. */
    method Build(r: Reader, ord: nat, docBase: nat, ghost flat: seq<Reader>)
      requires Valid(r) && Lists(flat)
      modifies this
      ensures Lists(flat + Leaves(r)) && old(leaves) <= leaves
      ensures forall k | |old(leaves)| <= k < |leaves| :: Placed(leaves[k], r, ord, docBase)
      decreases r
    {
      hide Leaves, AllLeaves, Base, PlacedUnder;
      LeavesOf(r);
      match r
      case Leaf(_, maxDoc) =>
        leaves := leaves + [LeafContext(r, ord, docBase, |leaves|, leafDocBase)];
        leafDocBase := leafDocBase + maxDoc;
        OneMoreLeaf(flat, r);
      case Composite(rs, _, _) =>
        var newDocBase: nat := 0;
        var i := 0;
        assert flat + AllLeaves(rs[..0]) == flat by { NoLeaves(rs); }
        while i < |rs|
          invariant 0 <= i <= |rs| && Lists(flat + AllLeaves(rs[..i])) && old(leaves) <= leaves
          invariant newDocBase == Sum(MaxDocs(rs)[..i])
          invariant forall k | |old(leaves)| <= k < |leaves| :: PlacedUnder(leaves[k], r)
        {
          ghost var before := |leaves|;
          assert rs[i] in rs;
          AllLeavesNext(rs, i);
          Build(rs[i], i, newDocBase, flat + AllLeaves(rs[..i]));
          Associate(flat, AllLeaves(rs[..i]), Leaves(rs[i]));
          AllPlacedInWhole(leaves, before, r, i);
          SumNext(MaxDocs(rs), i);
          newDocBase := newDocBase + rs[i].maxDoc;
          i := i + 1;
        }
        assert rs[..i] == rs;
    }
  }

  lemma LeavesOf(r: Reader)
    ensures Leaves(r) == if r.Leaf? then [r] else AllLeaves(r.subReaders)
  {
  }

  lemma NoLeaves(rs: seq<Reader>)
    ensures AllLeaves(rs[..0]) == []
  {
  }

  lemma AllLeavesNext(rs: seq<Reader>, i: nat)
    requires i < |rs|
    ensures AllLeaves(rs[..i + 1]) == AllLeaves(rs[..i]) + Leaves(rs[i])
  {
    assert rs[..i + 1][..i] == rs[..i];
  }

  lemma OneMoreLeaf(flat: seq<Reader>, leaf: Reader)
    ensures Base(flat + [leaf], |flat| + 1) == Base(flat, |flat|) + leaf.maxDoc
    ensures forall k: nat | k <= |flat| :: Base(flat + [leaf], k) == Base(flat, k)
  {
    BaseNext(flat + [leaf], |flat|);
    forall k: nat | k <= |flat| ensures Base(flat + [leaf], k) == Base(flat, k) {
      BaseOfPrefix(flat, [leaf], k);
    }
  }

  /** Build on the top-level reader: dispatch and list agree on leaf, base and local
      number of every document. */
  method BuildAndDispatch(r: Reader, docID: int) returns (found: Option<(Reader, nat)>, contexts: seq<LeafContext>)
    requires Valid(r)
    ensures found.Some? <==> 0 <= docID < r.maxDoc
    ensures |contexts| == |Leaves(r)| && forall k | 0 <= k < |contexts| :: contexts[k].leaf == Leaves(r)[k]
    ensures r.Composite? ==> forall c <- contexts :: PlacedUnder(c, r)
    ensures found.Some? ==>
              exists k: nat :: k < |contexts| && contexts[k].leaf == found.value.0 && contexts[k].ord == k
                               && contexts[k].docBase + found.value.1 == docID && found.value.1 < found.value.0.maxDoc
  {
    var builder := new CompositeReaderBuilder();
    builder.Build(r, 0, 0, []);
    assert [] + Leaves(r) == Leaves(r);
    contexts := builder.leaves;
    ghost var k;
    found, k := Dispatch(r, docID);
  }
}
