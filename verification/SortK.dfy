/** Selection of the k-th smallest in place (codecs/simpletext/bkdwriter.go, `SortK`,
    `sortN`, `partition`). */
module SortK {

  datatype Item = Item(key: int, value: int)

  // Ranks

  /** The number of keys below v. */
  function CountBelow(s: seq<Item>, v: int): (n: nat)
    ensures n <= |s|
  {
    if s == [] then 0 else CountBelow(s[..|s| - 1], v) + (if s[|s| - 1].key < v then 1 else 0)
  }

  lemma {:induction false} CountConcat(a: seq<Item>, b: seq<Item>, v: int)
    ensures CountBelow(a + b, v) == CountBelow(a, v) + CountBelow(b, v)
  {
    if b == [] {
      assert a + b == a;
    } else {
      var n := |b| - 1;
      CountConcat(a, b[..n], v);
      assert (a + b)[..|a + b| - 1] == a + b[..n];
    }
  }

  lemma CountOne(x: Item, v: int)
    ensures CountBelow([x], v) == if x.key < v then 1 else 0
  {
    assert [x][..0] == [];
  }

  function Without(s: seq<Item>, j: nat): seq<Item>
    requires j < |s|
  {
    s[..j] + s[j + 1..]
  }

  lemma CountWithout(s: seq<Item>, j: nat, v: int)
    requires j < |s|
    ensures CountBelow(s, v) == CountBelow(Without(s, j), v) + (if s[j].key < v then 1 else 0)
    ensures multiset(Without(s, j)) == multiset(s) - multiset{s[j]} && |Without(s, j)| < |s|
  {
    var a, x, b := s[..j], [s[j]], s[j + 1..];
    assert s == a + x + b;
    CountConcat(a + x, b, v);
    CountConcat(a, x, v);
    CountConcat(a, b, v);
    CountOne(s[j], v);
  }

  lemma {:induction false} CountPermuted(s: seq<Item>, t: seq<Item>, v: int)
    requires multiset(s) == multiset(t)
    ensures CountBelow(s, v) == CountBelow(t, v)
    decreases |s|
  {
    hide CountBelow, Without;
    if s == [] {
      assert |multiset(t)| == 0;
    } else {
      assert s[0] in multiset(t);
      var j :| 0 <= j < |t| && t[j] == s[0];
      CountWithout(s, 0, v);
      CountWithout(t, j, v);
      CountPermuted(Without(s, 0), Without(t, j), v);
    }
  }

  /** All keys are at most, at least, v. */
  ghost predicate AtMost(s: seq<Item>, v: int) {
    forall i | 0 <= i < |s| :: s[i].key <= v
  }

  ghost predicate AtLeast(s: seq<Item>, v: int) {
    forall i | 0 <= i < |s| :: v <= s[i].key
  }

  lemma {:induction false} CountOfBounded(s: seq<Item>, v: int)
    ensures AtMost(s, v - 1) ==> CountBelow(s, v) == |s|
    ensures AtLeast(s, v) ==> CountBelow(s, v) == 0
  {
    if s != [] {
      var n := |s| - 1;
      CountOfBounded(s[..n], v);
      assert AtMost(s, v - 1) ==> AtMost(s[..n], v - 1);
      assert AtLeast(s, v) ==> AtLeast(s[..n], v);
    }
  }

  lemma BoundsPermuted(s: seq<Item>, t: seq<Item>, v: int)
    requires multiset(s) == multiset(t)
    ensures AtMost(s, v) ==> AtMost(t, v)
    ensures AtLeast(s, v) ==> AtLeast(t, v)
  {
    forall i | 0 <= i < |t| ensures t[i] in s {
      assert t[i] in multiset(t);
    }
  }

  /** The key of rank r is v: at most r keys are below it, more are not above it. */
  ghost predicate Ranked(s: seq<Item>, r: nat, v: int) {
    CountBelow(s, v) <= r < CountBelow(s, v + 1)
  }

  /** Left of k nothing is above the item at k, right of k nothing below it. */
  ghost predicate Selected(s: seq<Item>, k: nat) {
    k < |s| && AtMost(s[..k], s[k].key) && AtLeast(s[k + 1..], s[k].key)
  }

  lemma CountParts(s: seq<Item>, p: nat, w: int)
    requires p < |s|
    ensures CountBelow(s, w) == CountBelow(s[..p], w) + (if s[p].key < w then 1 else 0) + CountBelow(s[p + 1..], w)
  {
    var left, right := s[..p], s[p + 1..];
    assert s == left + [s[p]] + right;
    CountConcat(left + [s[p]], right, w);
    CountConcat(left, [s[p]], w);
    CountOne(s[p], w);
  }

  /** Where the key of rank r is, once the items are parted at p, and how many items are
      not above it there. */
  lemma RankSide(s: seq<Item>, p: nat, r: nat, v: int)
    requires Selected(s, p) && r < |s| && Ranked(s, r, v)
    ensures r < p ==> v <= s[p].key && Ranked(s[..p], r, v)
    ensures r < p ==> CountBelow(s[..p], v + 1) == if v < s[p].key then CountBelow(s, v + 1) else p
    ensures r == p ==> v == s[p].key
    ensures r > p ==> s[p].key <= v && Ranked(s[p + 1..], r - p - 1, v)
    ensures r > p ==> CountBelow(s[p + 1..], v + 1) == CountBelow(s, v + 1) - p - 1
  {
    var left, pivot, right := s[..p], s[p].key, s[p + 1..];
    CountParts(s, p, v);
    CountParts(s, p, v + 1);
    CountOfBounded(left, v);
    CountOfBounded(left, v + 1);
    CountOfBounded(right, v);
    CountOfBounded(right, v + 1);
    if v > pivot {
      assert AtMost(left, v - 1) && AtMost(left, v);
    } else if v < pivot {
      assert AtLeast(right, v) && AtLeast(right, v + 1);
    } else {
      assert AtLeast(right, v) && AtMost(left, v);
    }
  }

  /** Every rank has a key. */
  lemma {:induction false} FindRank(s: seq<Item>, r: nat, low: int, high: int) returns (v: int)
    requires low <= high && CountBelow(s, low) <= r < CountBelow(s, high)
    ensures Ranked(s, r, v)
    decreases high - low
  {
    if CountBelow(s, low + 1) <= r {
      v := FindRank(s, r, low + 1, high);
    } else {
      v := low;
    }
  }

  lemma {:induction false} Bounds(s: seq<Item>) returns (low: int, high: int)
    ensures low <= high && AtLeast(s, low) && AtMost(s, high - 1)
  {
    if s == [] {
      low, high := 0, 0;
    } else {
      var x := s[|s| - 1].key;
      low, high := Bounds(s[..|s| - 1]);
      low, high := if x < low then x else low, if high <= x then x + 1 else high;
    }
  }

  lemma KeyOfRank(s: seq<Item>, r: nat) returns (v: int)
    requires r < |s|
    ensures Ranked(s, r, v)
  {
    var low, high := Bounds(s);
    CountOfBounded(s, low);
    CountOfBounded(s, high);
    v := FindRank(s, r, low, high);
  }

  /** No two items have one key. */
  ghost predicate Distinct(s: seq<Item>) {
    forall i, j | 0 <= i < j < |s| :: s[i].key != s[j].key
  }

  /** Among distinct keys one item has the key v at most. */
  lemma {:induction false} DistinctSteps(s: seq<Item>, v: int)
    requires Distinct(s)
    ensures CountBelow(s, v + 1) <= CountBelow(s, v) + 1
    ensures (forall i | 0 <= i < |s| :: s[i].key != v) ==> CountBelow(s, v) == CountBelow(s, v + 1)
  {
    if s != [] {
      DistinctSteps(s[..|s| - 1], v);
    }
  }

  // Rearranging

  /** `a` is `before` with the items from `from` until `end` rearranged. */
  ghost predicate Rearranged(before: seq<Item>, a: seq<Item>, from: nat, end: nat) {
    && |a| == |before| && from <= end <= |a|
    && multiset(a[from..end]) == multiset(before[from..end])
    && a[..from] == before[..from] && a[end..] == before[end..]
  }

  lemma Unchanged(s: seq<Item>, from: nat, end: nat)
    requires from <= end <= |s|
    ensures Rearranged(s, s, from, end)
  {
  }

  lemma Chain(s: seq<Item>, t: seq<Item>, u: seq<Item>, from: nat, end: nat)
    requires Rearranged(s, t, from, end) && Rearranged(t, u, from, end)
    ensures Rearranged(s, u, from, end)
  {
  }

  lemma Widen(before: seq<Item>, a: seq<Item>, from: nat, end: nat, from': nat, end': nat)
    requires Rearranged(before, a, from, end) && from' <= from && end <= end' <= |a|
    ensures Rearranged(before, a, from', end')
  {
    assert a[from'..end'] == a[from'..from] + a[from..end] + a[end..end'];
    assert before[from'..end'] == before[from'..from] + before[from..end] + before[end..end'];
    assert a[from'..from] == a[..from][from'..] && before[from'..from] == before[..from][from'..];
    assert a[end..end'] == a[end..][..end' - end] && before[end..end'] == before[end..][..end' - end];
    assert a[..from'] == a[..from][..from'] && before[..from'] == before[..from][..from'];
    assert a[end'..] == a[end..][end' - end..] && before[end'..] == before[end..][end' - end..];
  }

  function Swapped(s: seq<Item>, i: nat, j: nat): (t: seq<Item>)
    requires i < |s| && j < |s|
    ensures |t| == |s|
  {
    s[i := s[j]][j := s[i]]
  }

  lemma SwappedKeeps(was: seq<Item>, s: seq<Item>, i: nat, j: nat, from: nat, end: nat)
    requires Rearranged(was, s, from, end) && from <= i < end && from <= j < end && end <= |s|
    ensures Rearranged(was, Swapped(s, i, j), from, end)
  {
    var t := Swapped(s, i, j);
    SwappedRange(s[from..end], i - from, j - from);
    assert t[from..end] == Swapped(s[from..end], i - from, j - from);
    assert t[..from] == s[..from] && t[end..] == s[end..];
  }

  lemma SwappedRange(s: seq<Item>, i: nat, j: nat)
    requires i < |s| && j < |s|
    ensures multiset(Swapped(s, i, j)) == multiset(s)
  {
  }

  /** What is sorted: a list compared and rearranged by position only. */
  class Data {
    var items: seq<Item>

    constructor (items: seq<Item>)
      ensures this.items == items
    {
      this.items := items;
    }

    predicate Less(i: nat, j: nat)
      reads this
      requires i < |items| && j < |items|
    {
      items[i].key < items[j].key
    }

    method Swap(i: nat, j: nat)
      requires i < |items| && j < |items|
      modifies this
      ensures items == Swapped(old(items), i, j)
    {
      items := items[i := items[j]][j := items[i]];
    }
  }

  // Partition

  /** The loop of partition, from i and j on: what comes of the items, and where i ends. */
  function Scan(s: seq<Item>, begin: nat, i: nat, j: nat): (r: (seq<Item>, nat))
    requires begin < i <= j < |s|
    ensures |r.0| == |s| && i <= r.1 <= j
    decreases j - i
  {
    if i == j then (s, i)
    else if s[begin].key < s[i].key then Scan(Swapped(s, i, j), begin, i, j - 1)
    else Scan(s, begin, i + 1, j)
  }

  /** partition: the items afterwards, and the place of the pivot. */
  function PartitionOf(s: seq<Item>, begin: nat, end: nat): (r: (seq<Item>, nat))
    requires begin < end < |s|
    ensures |r.0| == |s| && begin <= r.1 <= end
  {
    var (t, i) := Scan(s, begin, begin + 1, end);
    var loc := if t[begin].key <= t[i].key then i - 1 else i;
    (Swapped(t, loc, begin), loc)
  }

  /** During partition: until i nothing is above the pivot, after j everything is. */
  ghost predicate Parted(s: seq<Item>, begin: nat, i: nat, j: nat, end: nat, pivot: Item) {
    && begin < i <= j <= end < |s| && s[begin] == pivot
    && (forall m | begin < m < i :: s[m].key <= pivot.key)
    && (forall m | j < m <= end :: pivot.key < s[m].key)
  }

  lemma PartedStep(s: seq<Item>, begin: nat, i: nat, j: nat, end: nat, pivot: Item)
    requires Parted(s, begin, i, j, end, pivot) && i < j
    ensures begin < j < |s| && j <= end && s[begin] == pivot
    ensures pivot.key < s[i].key ==> Parted(Swapped(s, i, j), begin, i, j - 1, end, pivot)
    ensures s[i].key <= pivot.key ==> Parted(s, begin, i + 1, j, end, pivot)
  {
  }

  lemma {:induction false} ScanParts(s: seq<Item>, begin: nat, i: nat, j: nat, end: nat, pivot: Item)
    requires begin < i <= j <= end < |s| && Parted(s, begin, i, j, end, pivot)
    ensures var (t, l) := Scan(s, begin, i, j); Parted(t, begin, l, l, end, pivot) && Rearranged(s, t, begin, end + 1)
    decreases j - i
  {
    hide Rearranged, Parted, Swapped;
    Unchanged(s, begin, end + 1);
    if i < j {
      PartedStep(s, begin, i, j, end, pivot);
      if s[begin].key < s[i].key {
        var u := Swapped(s, i, j);
        SwappedKeeps(s, s, i, j, begin, end + 1);
        ScanParts(u, begin, i, j - 1, end, pivot);
        Chain(s, u, Scan(u, begin, i, j - 1).0, begin, end + 1);
      } else {
        ScanParts(s, begin, i + 1, j, end, pivot);
      }
    }
  }

  /** With nothing above the pivot the loop moves nothing. */
  lemma {:induction false} ScanStays(s: seq<Item>, begin: nat, i: nat, j: nat)
    requires begin < i <= j < |s| && forall m | i <= m < j :: s[m].key <= s[begin].key
    ensures Scan(s, begin, i, j) == (s, j)
    decreases j - i
  {
    if i < j {
      ScanStays(s, begin, i + 1, j);
    }
  }

  /** After partition: the pivot stands at loc, nothing left of it is above it, nothing
      right of it below it, and only its neighbour there may be equal to it. */
  ghost predicate PartedAt(s: seq<Item>, begin: nat, loc: nat, end: nat) {
    && begin <= loc <= end < |s|
    && (forall m | begin <= m < loc :: s[m].key <= s[loc].key)
    && (forall m | loc < m <= end :: s[loc].key <= s[m].key)
    && (forall m | loc + 1 < m <= end :: s[loc].key < s[m].key)
  }

  lemma PartitionParts(s: seq<Item>, begin: nat, end: nat)
    requires begin < end < |s|
    ensures var (t, loc) := PartitionOf(s, begin, end);
            PartedAt(t, begin, loc, end) && t[loc] == s[begin] && Rearranged(s, t, begin, end + 1)
  {
    var pivot, scanned := s[begin], Scan(s, begin, begin + 1, end);
    var t, i := scanned.0, scanned.1;
    var loc := if t[begin].key <= t[i].key then i - 1 else i;
    assert PartitionOf(s, begin, end) == (Swapped(t, loc, begin), loc);
    assert Parted(s, begin, begin + 1, end, end, pivot);
    hide Rearranged, Parted, PartedAt, Scan, Swapped, PartitionOf;
    ScanParts(s, begin, begin + 1, end, end, pivot);
    PartedLast(t, begin, i, end, pivot);
    SwappedKeeps(s, t, loc, begin, begin, end + 1);
  }

  lemma PartedLast(s: seq<Item>, begin: nat, i: nat, end: nat, pivot: Item)
    requires Parted(s, begin, i, i, end, pivot)
    ensures begin < |s| && begin < i <= end && s[begin] == pivot
    ensures var loc := if s[i].key < pivot.key then i else i - 1;
            PartedAt(Swapped(s, loc, begin), begin, loc, end) && Swapped(s, loc, begin)[loc] == pivot
  {
  }

  /** With nothing above the pivot it goes to the last place, or to the one before if the
      last item is equal to it. */
  lemma PartitionOfTop(s: seq<Item>, begin: nat, end: nat)
    requires begin < end < |s| && forall m | begin < m <= end :: s[m].key <= s[begin].key
    ensures PartitionOf(s, begin, end).1 == if s[end].key == s[begin].key then end - 1 else end
  {
    ScanStays(s, begin, begin + 1, end);
  }

  /** partition, in place. */
  method Partition(begin: nat, end: nat, data: Data) returns (loc: nat)
    requires begin < end < |data.items|
    modifies data
    ensures (data.items, loc) == PartitionOf(old(data.items), begin, end)
  {
    hide Swapped;
    var i, j := begin + 1, end;
    while i < j
      invariant begin < i <= j <= end < |data.items|
      invariant Scan(data.items, begin, i, j) == Scan(old(data.items), begin, begin + 1, end)
    {
      if data.Less(begin, i) {
        data.Swap(i, j);
        j := j - 1;
      } else {
        i := i + 1;
      }
    }
    if data.Less(begin, i) || (!data.Less(begin, i) && !data.Less(i, begin)) {
      i := i - 1;
    }
    data.Swap(i, begin);
    return i;
  }

  // Ranges

  function Range(s: seq<Item>, from: nat, to: nat): seq<Item>
    requires from <= to < |s|
  {
    s[from..to + 1]
  }

  /** In the range, nothing left of k is above the item at k, nothing right of it below. */
  ghost predicate SelectedIn(s: seq<Item>, from: nat, k: nat, to: nat) {
    from <= k <= to < |s| && Selected(Range(s, from, to), k - from)
  }

  /** The key of rank k in the range is v. */
  ghost predicate KeyIn(s: seq<Item>, from: nat, to: nat, k: nat, v: int) {
    from <= k <= to < |s| && Ranked(Range(s, from, to), k - from, v)
  }

  /** How many items of the range are not above v, beyond those that k leaves before it. */
  function Excess(s: seq<Item>, from: nat, to: nat, k: nat, v: int): int
    requires from <= k <= to < |s|
  {
    CountBelow(Range(s, from, to), v + 1) - (k - from)
  }

  lemma PartedSelects(s: seq<Item>, from: nat, loc: nat, to: nat)
    requires PartedAt(s, from, loc, to)
    ensures from <= loc <= to && SelectedIn(s, from, loc, to)
  {
  }

  /** Of the items not above the pivot one more at most stands right of it. */
  lemma PivotCount(s: seq<Item>, from: nat, loc: nat, to: nat)
    requires PartedAt(s, from, loc, to)
    ensures 1 <= Excess(s, from, to, loc, s[loc].key) <= 2
  {
    var seg, q, v := Range(s, from, to), loc - from, s[loc].key;
    PartedSelects(s, from, loc, to);
    CountParts(seg, q, v + 1);
    CountOfBounded(seg[..q], v + 1);
    var right := seg[q + 1..];
    forall m | 1 <= m < |right| ensures v < right[m].key {
      assert right[m] == s[loc + 1 + m];
    }
    AtMostOne(right, v);
  }

  lemma AtMostOne(s: seq<Item>, v: int)
    requires forall m | 1 <= m < |s| :: v < s[m].key
    ensures CountBelow(s, v + 1) <= 1
  {
    if s != [] {
      CountParts(s, 0, v + 1);
      CountOfBounded(s[1..], v + 1);
      assert s[..0] == [];
    }
  }

  /** Where the key of rank k is after partition, and its excess there. */
  lemma PartedRank(s: seq<Item>, from: nat, loc: nat, to: nat, k: nat, v: int)
    requires PartedAt(s, from, loc, to) && KeyIn(s, from, to, k, v)
    ensures k < loc ==> v <= s[loc].key && KeyIn(s, from, loc - 1, k, v)
    ensures k < loc ==> Excess(s, from, loc - 1, k, v) ==
                        if v < s[loc].key then Excess(s, from, to, k, v) else loc - k
    ensures k == loc ==> v == s[loc].key
    ensures loc < k ==> s[loc].key <= v && KeyIn(s, loc + 1, to, k, v)
    ensures loc < k ==> Excess(s, loc + 1, to, k, v) == Excess(s, from, to, k, v)
  {
    hide CountBelow, Ranked;
    var seg := Range(s, from, to);
    PartedSelects(s, from, loc, to);
    RankSide(seg, loc - from, k - from, v);
    if k < loc {
      assert seg[..loc - from] == Range(s, from, loc - 1);
    } else if loc < k {
      assert seg[loc - from + 1..] == Range(s, loc + 1, to);
    }
  }

  /** A selected k-th item has the key of that rank, and the first is not above it. */
  lemma SelectedRank(s: seq<Item>, from: nat, k: nat, to: nat, v: int)
    requires SelectedIn(s, from, k, to) && KeyIn(s, from, to, k, v)
    ensures s[from].key <= v
  {
    hide CountBelow, Ranked;
    var seg := Range(s, from, to);
    RankSide(seg, k - from, k - from, v);
    assert s[from] == seg[0] && s[k] == seg[k - from];
    if from < k {
      assert seg[..k - from][0] == s[from];
    }
  }

  lemma RankRearranged(s: seq<Item>, t: seq<Item>, from: nat, to: nat, k: nat, v: int)
    requires from <= k <= to < |s| && Rearranged(s, t, from, to + 1)
    ensures Excess(s, from, to, k, v) == Excess(t, from, to, k, v)
            && (KeyIn(s, from, to, k, v) <==> KeyIn(t, from, to, k, v))
  {
    CountPermuted(Range(s, from, to), Range(t, from, to), v);
    CountPermuted(Range(s, from, to), Range(t, from, to), v + 1);
  }

  /** With k right of the pivot: selecting there selects in the whole range. */
  lemma RightDone(s: seq<Item>, t: seq<Item>, from: nat, loc: nat, k: nat, to: nat)
    requires PartedAt(s, from, loc, to) && loc < k <= to
    requires Rearranged(s, t, loc + 1, to + 1) && SelectedIn(t, loc + 1, k, to)
    ensures SelectedIn(t, from, k, to)
  {
    var pivot := s[loc].key;
    assert AtLeast(Range(s, loc + 1, to), pivot);
    BoundsPermuted(Range(s, loc + 1, to), Range(t, loc + 1, to), pivot);
    var right := Range(t, loc + 1, to);
    assert t[k] == right[k - loc - 1];
    forall m | from <= m < k ensures t[m].key <= t[k].key {
      if m <= loc {
        assert t[m] == t[..loc + 1][m] == s[..loc + 1][m] == s[m];
      } else {
        assert t[m] == right[..k - loc - 1][m - loc - 1];
      }
    }
    forall m | k < m <= to ensures t[k].key <= t[m].key {
      assert t[m] == right[k - loc..][m - k - 1];
    }
  }

  lemma AfterPart(was: seq<Item>, parted: seq<Item>, s: seq<Item>, from: nat, to: nat, from': nat, to': nat)
    requires from' <= from <= to + 1 && to <= to' < |s|
    requires Rearranged(was, parted, from', to' + 1) && Rearranged(parted, s, from, to + 1)
    ensures Rearranged(was, s, from', to' + 1)
  {
    Widen(parted, s, from, to + 1, from', to' + 1);
    Chain(was, parted, s, from', to' + 1);
  }

  // Selection

  /** sortN, as far as `steps` rounds on each level lead: the items, and whether it ends. */
  function SortNOf(s: seq<Item>, from: nat, to: nat, k: nat, steps: nat): (r: (seq<Item>, bool))
    requires from <= k <= to < |s|
    ensures |r.0| == |s|
    decreases steps
  {
    if from == to then (s, true)
    else if steps == 0 then (s, false)
    else
      var (t, loc) := PartitionOf(s, from, to);
      if loc == k then (t, true)
      else if loc < k then SortNOf(t, loc + 1, to, k, steps - 1)
      else
        var (u, done) := SortNOf(t, from, loc - 1, k, steps - 1);
        if done then SortNOf(u, from, to, k, steps - 1) else (u, false)
  }

  /** sortN, in place. */
  method SortN(from: nat, to: nat, k: nat, data: Data, steps: nat) returns (done: bool)
    requires from <= k <= to < |data.items|
    modifies data
    ensures (data.items, done) == SortNOf(old(data.items), from, to, k, steps)
    decreases steps
  {
    hide PartitionOf;
    var left: nat := steps;
    while from < to
      invariant to < |data.items|
                && SortNOf(data.items, from, to, k, left) == SortNOf(old(data.items), from, to, k, steps)
      invariant left <= steps
      decreases left
    {
      if left == 0 {
        return false;
      }
      left := left - 1;
      var loc := Partition(from, to, data);
      if loc == k {
        return true;
      }
      if loc < k {
        done := SortN(loc + 1, to, k, data, left);
        return;
      }
      done := SortN(from, loc - 1, k, data, left);
      if !done {
        return;
      }
    }
    return true;
  }

  lemma SortNRound(s: seq<Item>, from: nat, to: nat, k: nat, steps: nat)
    requires from <= k <= to < |s| && from < to && steps > 0
    ensures var (t, loc) := PartitionOf(s, from, to);
            && (loc == k ==> SortNOf(s, from, to, k, steps) == (t, true))
            && (loc < k ==> SortNOf(s, from, to, k, steps) == SortNOf(t, loc + 1, to, k, steps - 1))
            && (k < loc ==>
                  var (u, done) := SortNOf(t, from, loc - 1, k, steps - 1);
                  SortNOf(s, from, to, k, steps) == if done then SortNOf(u, from, to, k, steps - 1) else (u, false))
  {
  }

  /** Only the range is rearranged, and when the selection ended it is made. */
  ghost predicate Kept(s: seq<Item>, r: (seq<Item>, bool), from: nat, to: nat, k: nat) {
    Rearranged(s, r.0, from, to + 1) && (r.1 ==> SelectedIn(r.0, from, k, to))
  }

  lemma {:induction false} SortNKeeps(s: seq<Item>, from: nat, to: nat, k: nat, steps: nat)
    requires from <= k <= to < |s|
    ensures Kept(s, SortNOf(s, from, to, k, steps), from, to, k)
    decreases steps
  {
    hide Kept, PartitionOf, SortNOf;
    if from == to || steps == 0 {
      KeptUnsorted(s, from, to, k, steps);
    } else {
      SortNRound(s, from, to, k, steps);
      var parted := PartitionOf(s, from, to);
      var t, loc := parted.0, parted.1;
      if loc == k {
        KeptParted(s, from, to, k);
      } else if loc < k {
        SortNKeeps(t, loc + 1, to, k, steps - 1);
        KeptRight(s, from, to, k, SortNOf(t, loc + 1, to, k, steps - 1));
      } else {
        var left := SortNOf(t, from, loc - 1, k, steps - 1);
        SortNKeeps(t, from, loc - 1, k, steps - 1);
        if left.1 {
          SortNKeeps(left.0, from, to, k, steps - 1);
        }
        KeptLeft(s, from, to, k, left, SortNOf(left.0, from, to, k, steps - 1));
      }
    }
  }

  lemma KeptUnsorted(s: seq<Item>, from: nat, to: nat, k: nat, steps: nat)
    requires from <= k <= to < |s| && (from == to || steps == 0)
    ensures Kept(s, SortNOf(s, from, to, k, steps), from, to, k)
  {
    Unchanged(s, from, to + 1);
    OneSelected(s, from);
  }

  lemma KeptParted(s: seq<Item>, from: nat, to: nat, k: nat)
    requires from < to < |s| && PartitionOf(s, from, to).1 == k
    ensures Kept(s, (PartitionOf(s, from, to).0, true), from, to, k)
  {
    hide PartedAt, PartitionOf, Rearranged, SelectedIn;
    PartitionParts(s, from, to);
    PartedSelects(PartitionOf(s, from, to).0, from, k, to);
  }

  lemma KeptRight(s: seq<Item>, from: nat, to: nat, k: nat, r: (seq<Item>, bool))
    requires from < to < |s| && PartitionOf(s, from, to).1 < k <= to
    requires Kept(PartitionOf(s, from, to).0, r, PartitionOf(s, from, to).1 + 1, to, k) && |r.0| == |s|
    ensures Kept(s, r, from, to, k)
  {
    hide PartedAt, PartitionOf, Rearranged, SelectedIn;
    var (t, loc) := PartitionOf(s, from, to);
    PartitionParts(s, from, to);
    AfterPart(s, t, r.0, loc + 1, to, from, to);
    if r.1 {
      RightDone(t, r.0, from, loc, k, to);
    }
  }

  /** A selection on the left, and, if it ended, the rest of the loop. */
  lemma KeptLeft(s: seq<Item>, from: nat, to: nat, k: nat, left: (seq<Item>, bool), rest: (seq<Item>, bool))
    requires from < to < |s| && from <= k < PartitionOf(s, from, to).1 && |left.0| == |s|
    requires Kept(PartitionOf(s, from, to).0, left, from, PartitionOf(s, from, to).1 - 1, k)
    requires left.1 ==> Kept(left.0, rest, from, to, k)
    ensures Kept(s, if left.1 then rest else left, from, to, k)
    ensures Rearranged(s, left.0, from, to + 1)
  {
    hide PartedAt, PartitionOf, Rearranged, SelectedIn;
    var (t, loc) := PartitionOf(s, from, to);
    PartitionParts(s, from, to);
    AfterPart(s, t, left.0, from, loc - 1, from, to);
    if left.1 {
      Chain(s, left.0, rest.0, from, to + 1);
    }
  }

  lemma OneSelected(s: seq<Item>, k: nat)
    requires k < |s|
    ensures SelectedIn(s, k, k, k)
  {
  }

  /** A round: what partition does, and, when the selection on the left ends, the items
      with which the loop goes on. */
  lemma Round(s: seq<Item>, from: nat, to: nat, k: nat, v: int, steps: nat)
    requires from < to && KeyIn(s, from, to, k, v)
    ensures var (t, loc) := PartitionOf(s, from, to);
            && PartedAt(t, from, loc, to) && t[loc] == s[from]
            && KeyIn(t, from, to, k, v) && Excess(t, from, to, k, v) == Excess(s, from, to, k, v)
            && (k < loc && SortNOf(t, from, loc - 1, k, steps).1 ==>
                  var u := SortNOf(t, from, loc - 1, k, steps).0;
                  && KeyIn(u, from, to, k, v) && Excess(u, from, to, k, v) == Excess(s, from, to, k, v)
                  && u[from].key <= v && u[loc] == t[loc] && Rearranged(s, u, from, to + 1))
  {
    hide Rearranged, PartedAt, SelectedIn, KeyIn, Excess, PartitionOf, SortNOf;
    KeyInside(s, from, to, k, v);
    var (t, loc) := PartitionOf(s, from, to);
    PartitionParts(s, from, to);
    RankRearranged(s, t, from, to, k, v);
    PartedRank(t, from, loc, to, k, v);
    if k < loc && SortNOf(t, from, loc - 1, k, steps).1 {
      SortNKeeps(t, from, loc - 1, k, steps);
      var u := SortNOf(t, from, loc - 1, k, steps).0;
      AfterPart(s, t, u, from, loc - 1, from, to);
      RankRearranged(s, u, from, to, k, v);
      RankRearranged(t, u, from, loc - 1, k, v);
      SelectedRank(u, from, k, loc - 1, v);
      Behind(t, u, from, loc);
    }
  }

  lemma KeyInside(s: seq<Item>, from: nat, to: nat, k: nat, v: int)
    requires KeyIn(s, from, to, k, v)
    ensures from <= k <= to < |s| && 1 <= Excess(s, from, to, k, v) && Excess(s, from, to, k, v) + k <= to + 1
  {
  }

  lemma Behind(t: seq<Item>, u: seq<Item>, from: nat, end: nat)
    requires Rearranged(t, u, from, end) && end < |t|
    ensures |u| == |t| && u[end] == t[end]
  {
    assert u[end..][0] == t[end..][0];
  }

  // When it ends

  /** No item from k on is equal to the k-th smallest but itself: it always ends. */
  lemma {:induction false} EndsLast(s: seq<Item>, from: nat, to: nat, k: nat, v: int, steps: nat)
    requires KeyIn(s, from, to, k, v) && Excess(s, from, to, k, v) == 1 && steps >= 2 * (to - from)
    ensures SortNOf(s, from, to, k, steps).1
    decreases (to - from), 1
  {
    hide Rearranged, PartedAt, KeyIn, Excess, PartitionOf;
    KeyInside(s, from, to, k, v);
    if from < to {
      var (t, loc) := PartitionOf(s, from, to);
      Round(s, from, to, k, v, steps - 1);
      PartedRank(t, from, loc, to, k, v);
      PivotCount(t, from, loc, to);
      if loc < k {
        EndsLast(t, loc + 1, to, k, v, steps - 1);
      } else if k < loc {
        ExcessAt(t, from, to, k, loc, v);
        EndsLast(t, from, loc - 1, k, v, steps - 1);
        var u := SortNOf(t, from, loc - 1, k, steps - 1).0;
        EndsLow(u, from, to, k, v, steps - 1);
      }
    }
  }

  /** The same when the pivot is not above the k-th smallest, a step sooner. */
  lemma {:induction false} EndsLow(s: seq<Item>, from: nat, to: nat, k: nat, v: int, steps: nat)
    requires from < to && KeyIn(s, from, to, k, v) && Excess(s, from, to, k, v) == 1
    requires from < |s| && s[from].key <= v && steps >= 2 * (to - from) - 1
    ensures SortNOf(s, from, to, k, steps).1
    decreases (to - from), 0
  {
    hide Rearranged, PartedAt, KeyIn, Excess, PartitionOf;
    KeyInside(s, from, to, k, v);
    var (t, loc) := PartitionOf(s, from, to);
    Round(s, from, to, k, v, steps - 1);
    PartedRank(t, from, loc, to, k, v);
    PivotCount(t, from, loc, to);
    ExcessAt(t, from, to, k, loc, v);
    if loc < k {
      EndsLast(t, loc + 1, to, k, v, steps - 1);
    }
  }

  lemma ExcessAt(s: seq<Item>, from: nat, to: nat, k: nat, loc: nat, v: int)
    requires from <= k <= to < |s| && from <= loc <= to
    ensures Excess(s, from, to, loc, v) == Excess(s, from, to, k, v) + k - loc
  {
  }

  /** Two more items from k on are equal to the k-th smallest: it never ends. */
  lemma {:induction false} NeverEnds(s: seq<Item>, from: nat, to: nat, k: nat, v: int, steps: nat)
    requires KeyIn(s, from, to, k, v) && Excess(s, from, to, k, v) >= 3
    ensures !SortNOf(s, from, to, k, steps).1
    decreases steps
  {
    hide Rearranged, PartedAt, KeyIn, Excess, PartitionOf;
    KeyInside(s, from, to, k, v);
    if steps > 0 {
      var (t, loc) := PartitionOf(s, from, to);
      Round(s, from, to, k, v, steps - 1);
      PartedRank(t, from, loc, to, k, v);
      PivotCount(t, from, loc, to);
      if loc < k {
        NeverEnds(t, loc + 1, to, k, v, steps - 1);
      } else if k < loc && SortNOf(t, from, loc - 1, k, steps - 1).1 {
        NeverEnds(SortNOf(t, from, loc - 1, k, steps - 1).0, from, to, k, v, steps - 1);
      }
    }
  }

  /** One more item from k on is equal to it, and nothing is above: it ends. */
  lemma {:induction false} EndsTop(s: seq<Item>, from: nat, to: nat, k: nat, v: int, steps: nat)
    requires KeyIn(s, from, to, k, v) && Excess(s, from, to, k, v) == 2 && k + 1 == to && steps >= 2 * (to - from)
    ensures SortNOf(s, from, to, k, steps).1
    decreases (to - from), 1
  {
    hide Rearranged, PartedAt, KeyIn, Excess, PartitionOf;
    KeyInside(s, from, to, k, v);
    var (t, loc) := PartitionOf(s, from, to);
    Round(s, from, to, k, v, steps - 1);
    PartedRank(t, from, loc, to, k, v);
    if loc < k {
      EndsTop(t, loc + 1, to, k, v, steps - 1);
    } else if k < loc {
      NothingAbove(t, from, to, k, v);
      EndsLast(t, from, loc - 1, k, v, steps - 1);
      var u := SortNOf(t, from, loc - 1, k, steps - 1).0;
      EndsTopLow(u, from, to, k, v, steps - 1);
    }
  }

  lemma {:induction false} EndsTopLow(s: seq<Item>, from: nat, to: nat, k: nat, v: int, steps: nat)
    requires KeyIn(s, from, to, k, v) && Excess(s, from, to, k, v) == 2 && k + 1 == to
    requires from < to < |s| && s[from].key <= v == s[to].key && steps >= 2 * (to - from) - 1
    ensures SortNOf(s, from, to, k, steps).1
    decreases (to - from), 0
  {
    hide Rearranged, PartedAt, KeyIn, Excess;
    var (t, loc) := PartitionOf(s, from, to);
    Round(s, from, to, k, v, steps - 1);
    PartedRank(t, from, loc, to, k, v);
    if s[from].key == v {
      NothingAbove(s, from, to, k, v);
      PartitionOfTop(s, from, to);
    } else {
      hide PartitionOf;
      EndsTop(t, loc + 1, to, k, v, steps - 1);
    }
  }

  /** When all items of the range count, none is above v. */
  lemma NothingAbove(s: seq<Item>, from: nat, to: nat, k: nat, v: int)
    requires from <= k <= to < |s| && Excess(s, from, to, k, v) + k == to + 1
    ensures forall m | from <= m <= to :: s[m].key <= v
  {
    AllCounted(Range(s, from, to), v);
    assert forall m | from <= m <= to :: s[m] == Range(s, from, to)[m - from];
  }

  lemma {:induction false} AllCounted(s: seq<Item>, v: int)
    requires CountBelow(s, v + 1) == |s|
    ensures AtMost(s, v)
  {
    if s != [] {
      AllCounted(s[..|s| - 1], v);
    }
  }

  ghost predicate Ends(s: seq<Item>, k: nat, steps: nat)
    requires k < |s|
  {
    SortNOf(s, 0, |s| - 1, k, steps).1
  }

  /** SortK ends exactly when at most one item from k on is equal to the k-th smallest
      without being it; only when there is one, and items above it, the order decides. */
  lemma EndsIff(s: seq<Item>, k: nat, v: int, steps: nat)
    requires k < |s| && Ranked(s, k, v) && steps >= 2 * |s|
    requires var c := CountBelow(s, v + 1); c != k + 2 || c == |s|
    ensures Ends(s, k, steps) <==> CountBelow(s, v + 1) <= k + 2
    ensures CountBelow(s, v + 1) > k + 2 ==> forall n: nat :: !Ends(s, k, n)
  {
    var to := |s| - 1;
    assert Range(s, 0, to) == s;
    var c := CountBelow(s, v + 1);
    if c == k + 1 {
      EndsLast(s, 0, to, k, v, steps);
    } else if c == k + 2 {
      EndsTop(s, 0, to, k, v, steps);
    } else {
      forall n: nat ensures !Ends(s, k, n) {
        NeverEnds(s, 0, to, k, v, n);
      }
    }
  }

  /** The keys 0, 1, 0: the least is found at once. */
  lemma OneOrderEnds(s: seq<Item>, steps: nat)
    requires |s| == 3 && s[0].key == s[2].key < s[1].key && steps > 0
    ensures Ends(s, 0, steps)
  {
    assert Scan(s, 0, 1, 2) == Scan(Swapped(s, 1, 2), 0, 1, 1);
  }

  /** The keys 0, 0, 1: the least is looked for for ever. */
  lemma {:induction false} OtherOrderNeverEnds(s: seq<Item>, steps: nat)
    requires |s| == 3 && s[0].key == s[1].key < s[2].key
    ensures !Ends(s, 0, steps)
    decreases steps
  {
    if steps > 0 {
      assert Scan(s, 0, 1, 2) == Scan(s, 0, 2, 2);
      var t := Swapped(s, 1, 0);
      assert PartitionOf(s, 0, 2) == (t, 1);
      assert SortNOf(t, 0, 0, 0, steps - 1) == (t, true);
      OtherOrderNeverEnds(t, steps - 1);
    }
  }

  /** Whether it ends is told by the number of items that are not above the key v. */
  ghost predicate Told(s: seq<Item>, k: nat, v: int, done: bool) {
    var c := CountBelow(s, v + 1);
    c != k + 2 || c == |s| ==> (done <==> c <= k + 2)
  }

  /** SortK. When it ends, the items are the same and the k-th is selected; whether it
      ends is told by how many items are not above the k-th smallest. */
  method Select(data: Data, k: nat, steps: nat) returns (done: bool)
    requires k < |data.items|
    modifies data
    ensures (data.items, done) == SortNOf(old(data.items), 0, |old(data.items)| - 1, k, steps)
    ensures multiset(data.items) == multiset(old(data.items))
    ensures done ==> Selected(data.items, k)
    ensures steps >= 2 * |old(data.items)| && Distinct(old(data.items)) ==> done
    ensures steps >= 2 * |old(data.items)| ==>
              forall v | Ranked(old(data.items), k, v) :: Told(old(data.items), k, v, done)
  {
    ghost var was := data.items;
    var to := |data.items| - 1;
    done := SortN(0, to, k, data, steps);
    SortNKeeps(was, 0, to, k, steps);
    assert Range(was, 0, to) == was && Range(data.items, 0, to) == data.items;
    hide SortNOf, Ranked, CountBelow;
    if steps >= 2 * |was| {
      forall v | Ranked(was, k, v) ensures Told(was, k, v, done) {
        if CountBelow(was, v + 1) != k + 2 || CountBelow(was, v + 1) == |was| {
          EndsIff(was, k, v, steps);
        }
      }
      if Distinct(was) {
        DistinctEnds(was, k, steps);
      }
    }
  }

  lemma DistinctEnds(s: seq<Item>, k: nat, steps: nat)
    requires k < |s| && Distinct(s) && steps >= 2 * |s|
    ensures Ends(s, k, steps)
  {
    var v := KeyOfRank(s, k);
    DistinctSteps(s, v);
    EndsIff(s, k, v, steps);
  }
}
