/** The multi-level skip list reader (core/index/multilevelskiplistreader.go).

    Level streams are positions in one file; buffered levels, which the reader
    never asks for, are not part of this model. */
module SkipReader {
  import opened Arithmetic
  import opened Bytes
  import opened Varint
  import opened SkipLayout

  // Where a level stands after c of its entries

  function Shown(list: List, level: nat, c: nat): nat
    requires list.multiplier >= 2
  {
    if c > list.Entries(level) then list.Entries(level) else c
  }

  /** The document a level shows: that of its entry, or the greatest number there
      is once the level is exhausted. */
  ghost function DocAt(list: List, level: nat, c: nat): int
    requires list.multiplier >= 2
  {
    if c > list.Entries(level) then MAX_INT32 else list.Doc(level, c)
  }

  ghost function Pos(list: List, base: nat, level: nat, c: nat): nat
    requires list.Valid() && level < list.Levels()
  {
    list.LevelStart(base, level) + |list.LevelBytes(level, Shown(list, level, c))|
  }

  /** The child pointer of an entry: where the skip data of the corresponding
      entry one level down ends. The lowest level and the start have none. */
  ghost function Child(list: List, base: nat, level: nat, c: nat): nat
    requires list.Valid() && level < list.Levels()
  {
    var e := Shown(list, level, c);
    if level == 0 || e == 0 then 0
    else
      Lower(list.Entries(level - 1), list.multiplier, e);
      ScaleUp(1, e, list.multiplier);
      list.LevelStart(base, level - 1) + list.DataEnd(level - 1, e * list.multiplier)
  }

  /** What the reader keeps for one level. */
  datatype Row = Row(stream: nat, numSkipped: int, skipDoc: int, childPointer: int)

  ghost function RowAt(list: List, base: nat, level: nat, c: nat): Row
    requires list.Valid() && level < list.Levels()
  {
    Row(Pos(list, base, level, c), c * list.Interval(level), DocAt(list, level, c), Child(list, base, level, c))
  }

  /** Where a level stands between two calls: at its first entry not before the
      greatest target so far, or past its end; at its start while no target was
      positive. */
  ghost function Rest(list: List, level: nat, target: int): nat
    requires list.multiplier >= 2
  {
    if target <= 0 then 0 else list.Below(level, target) + 1
  }

  ghost predicate AtRest(list: List, target: int, at: seq<nat>, levels: int)
    requires list.multiplier >= 2
  {
    && (forall l: nat | l < |at| :: at[l] == Rest(list, l, target))
    && OpenLevels(list, at, levels)
  }

  /** The level count counts the levels that are not exhausted. */
  ghost predicate OpenLevels(list: List, at: seq<nat>, levels: int)
    requires list.multiplier >= 2
  {
    levels <= |at| && forall l: nat | l < |at| :: l < levels <==> at[l] <= list.Entries(l)
  }

  // One call of SkipTo, level by level

  ghost predicate LowerWait(list: List, before: int, target: int, at: seq<nat>, k: nat)
    requires list.multiplier >= 2 && k < |at|
  {
    forall l: nat | l < k :: at[l] == Rest(list, l, before) && at[l] <= list.Below(l, target)
  }

  ghost predicate HigherDone(list: List, target: int, at: seq<nat>, k: nat)
    requires list.multiplier >= 2 && k < |at|
  {
    forall l: nat | k < l < |at| :: at[l] == Rest(list, l, target)
  }

  /** A level above the current one is done, one below is as it was; the current
      one has not passed its place. Once it is there, the last skip data are those
      of the entry before it. */
  ghost predicate Descending(list: List, base: nat, before: int, target: int, at: seq<nat>, levels: int,
                             k: nat, lastDoc: int, lastChild: int)
    requires list.Valid()
  {
    && before <= target && 0 < target <= MAX_INT32
    && |at| == list.Levels() && k < |at|
    && LowerWait(list, before, target, at, k) && HigherDone(list, target, at, k)
    && at[k] <= Rest(list, k, target)
    && (at[k] == Rest(list, k, target) ==>
          lastDoc == DocAt(list, k, at[k] - 1) && lastChild == Child(list, base, k, at[k] - 1))
    && OpenLevels(list, at, levels)
  }

  /** The first target not positive: nothing moves. */
  lemma RestLow(list: List, level: nat, t: int, u: int)
    requires list.Valid() && t <= u
    ensures Rest(list, level, t) <= Rest(list, level, u) <= list.Entries(level) + 1
  {
    BelowMonotone(list, level, t, u);
  }

  /** A level shows a document before the target exactly while it has not passed
      its place. */
  lemma MustLoad(list: List, level: nat, c: nat, target: int)
    requires list.Valid() && 0 < target <= MAX_INT32 && c <= list.Entries(level) + 1
    ensures target > DocAt(list, level, c) <==> c <= list.Below(level, target)
  {
    BelowMonotone(list, level, target, target);
    if 1 <= c <= list.Entries(level) {
      BelowIsPrefix(list, level, target, c);
    } else if c == 0 {
      DocZero(list, level);
    }
  }

  /** What one level up has to load, so has the level below. */
  lemma LowerMustLoad(list: List, k: nat, before: int, target: int)
    requires list.Valid() && before <= target && Rest(list, k + 1, before) <= list.Below(k + 1, target)
    ensures Rest(list, k, before) <= list.Below(k, target)
  {
    BelowMonotone(list, k, before, target);
    if before > 0 {
      var m := list.multiplier;
      var a, b := list.Below(k, before), list.Below(k, target);
      Lower(b, m, a / m + 1);
      Lower(a, m, a / m + 1);
    }
  }

  lemma {:induction false} AllLowerMustLoad(list: List, k: nat, before: int, target: int, l: nat)
    requires list.Valid() && before <= target && l <= k && Rest(list, k, before) <= list.Below(k, target)
    ensures Rest(list, l, before) <= list.Below(l, target)
    decreases k
  {
    if l < k {
      LowerMustLoad(list, k - 1, before, target);
      AllLowerMustLoad(list, k - 1, before, target, l);
    }
  }

  /** A level that need not move keeps all higher levels where they are. */
  lemma {:induction false} HigherStay(list: List, k: nat, before: int, target: int, l: nat)
    requires list.Valid() && before <= target && k <= l && list.Below(k, before) == list.Below(k, target)
    ensures list.Below(l, before) == list.Below(l, target)
  {
    if k < l {
      HigherStay(list, k, before, target, l - 1);
    }
  }

  /** The walk up the levels ends at a level from which the descent can start. */
  lemma StartDescent(list: List, base: nat, before: int, target: int, at: seq<nat>, levels: int, k: nat,
                     lastDoc: int, lastChild: int)
    requires list.Valid() && before < target && 0 < target <= MAX_INT32
    requires |at| == list.Levels() && k < |at| && AtRest(list, before, at, levels)
    requires before > 0 ==> lastDoc == list.Doc(0, list.Below(0, before)) && lastChild == 0
    requires k > 0 ==> target > DocAt(list, k, at[k])
    requires k + 1 < levels ==> target <= DocAt(list, k + 1, at[k + 1])
    ensures Descending(list, base, before, target, at, levels, k, lastDoc, lastChild)
  {
    forall l: nat | l < |at| ensures at[l] <= list.Entries(l) + 1 {
      RestLow(list, l, before, target);
    }
    MustLoad(list, k, at[k], target);
    forall l: nat | l < k ensures at[l] <= list.Below(l, target) {
      AllLowerMustLoad(list, k, before, target, l);
    }
    forall l: nat | k < l < |at| ensures at[l] == Rest(list, l, target) {
      RestLow(list, k + 1, before, target);
      MustLoad(list, k + 1, at[k + 1], target);
      NextStays(list, before, target, at, levels, k);
      HigherStay(list, k + 1, before, target, l);
    }
    RestLow(list, k, before, target);
  }

  lemma NextStays(list: List, before: int, target: int, at: seq<nat>, levels: int, k: nat)
    requires list.Valid() && before < target && 0 < target <= MAX_INT32
    requires |at| == list.Levels() && k + 1 < |at| && AtRest(list, before, at, levels)
    requires k + 1 < levels ==> target <= DocAt(list, k + 1, at[k + 1])
    ensures before > 0 && list.Below(k + 1, before) == list.Below(k + 1, target)
  {
    RestLow(list, k + 1, before, target);
    MustLoad(list, k + 1, at[k + 1], target);
    BelowMonotone(list, k + 1, before, target);
  }

  /** A load moves the current level by one entry. */
  lemma LoadStep(list: List, base: nat, before: int, target: int, at: seq<nat>, levels: int, k: nat,
                 lastDoc: int, lastChild: int, levels': int)
    requires list.Valid() && Descending(list, base, before, target, at, levels, k, lastDoc, lastChild)
    requires at[k] <= list.Below(k, target)
    requires levels' == if at[k] == list.Entries(k) && levels > k then k else levels
    requires at[k] <= list.Entries(k)
    ensures Descending(list, base, before, target, at[k := at[k] + 1], levels', k,
                       DocAt(list, k, at[k]), Child(list, base, k, at[k]))
  {
    hide DocAt, Child, List.Below, List.Entries, List.Levels;
    LoadLevels(list, target, at, levels, k, levels');
    var at' := at[k := at[k] + 1];
    assert LowerWait(list, before, target, at', k);
    assert HigherDone(list, target, at', k);
  }

  lemma LoadLevels(list: List, target: int, at: seq<nat>, levels: int, k: nat, levels': int)
    requires list.Valid() && target > 0 && k < |at| && OpenLevels(list, at, levels)
    requires HigherDone(list, target, at, k)
    requires at[k] <= list.Below(k, target)
    requires levels' == if at[k] == list.Entries(k) && levels > k then k else levels
    ensures OpenLevels(list, at[k := at[k] + 1], levels')
  {
    BelowMonotone(list, k, target, target);
    if at[k] == list.Entries(k) {
      forall l: nat | k < l < |at| ensures at[l] > list.Entries(l) {
        ExhaustedAbove(list, k, target, l);
      }
    }
  }

  lemma {:induction false} ExhaustedAbove(list: List, k: nat, target: int, l: nat)
    requires list.Valid() && k <= l && list.Below(k, target) == list.Entries(k)
    ensures list.Below(l, target) == list.Entries(l)
  {
    if k < l {
      ExhaustedAbove(list, k, target, l - 1);
    }
  }

  /** The entry one level down that an entry corresponds to. */
  ghost function Led(list: List, c: nat): nat {
    c * list.multiplier
  }

  lemma LowestHasNoChild(list: List, base: nat, c: nat)
    requires list.Valid()
    ensures Child(list, base, 0, c) == 0
  {
  }

  /** Where the level below continues: at the entry the child pointer leads to, if
      that is further on. */
  ghost function Continue(list: List, at: seq<nat>, k: nat): nat
    requires 0 < k < |at| && at[k] >= 1
  {
    var e := Led(list, at[k] - 1);
    if e > at[k - 1] then e else at[k - 1]
  }

  lemma ContinueFits(list: List, k: nat, target: int, c: nat)
    requires list.multiplier >= 2 && k > 0 && 1 <= c <= list.Below(k, target) + 1
    ensures Led(list, c - 1) <= list.Below(k - 1, target)
  {
    Lower(list.Below(k - 1, target), list.multiplier, c - 1);
  }

  lemma DescendStep(list: List, base: nat, before: int, target: int, at: seq<nat>, levels: int, k: nat,
                    lastDoc: int, lastChild: int)
    requires list.Valid() && Descending(list, base, before, target, at, levels, k, lastDoc, lastChild)
    requires k > 0 && at[k] == Rest(list, k, target)
    ensures Continue(list, at, k) <= list.Below(k - 1, target) <= list.Entries(k - 1)
    ensures Descending(list, base, before, target, at[k - 1 := Continue(list, at, k)], levels, k - 1, lastDoc,
                       lastChild)
  {
    hide DocAt, Child, List.Below, List.Entries, List.Levels;
    ContinueFits(list, k, target, at[k]);
    BelowMonotone(list, k - 1, target, target);
    var at' := at[k - 1 := Continue(list, at, k)];
    assert at'[k - 1] <= list.Entries(k - 1);
  }

  // Reading one entry, and following a child pointer

  /** The next two numbers of a level are those of its next entry. */
  lemma NextEntry(list: List, data: seq<Byte>, base: nat, level: nat, c: nat)
    requires list.Stored(data, base) && level < list.Levels() && c + 1 <= list.Entries(level)
    ensures DocAt(list, level, c) <= DocAt(list, level, c + 1)
    ensures UvarintAt(data, Pos(list, base, level, c)) ==
            Some((DocAt(list, level, c + 1) - DocAt(list, level, c), AfterData(list, base, level, c + 1)))
    ensures level == 0 ==> AfterData(list, base, level, c + 1) == Pos(list, base, level, c + 1)
    ensures level > 0 ==> ChildAt(list, data, base, level, c + 1)
  {
    hide Uvarint, UvarintAt, List.LevelStart, List.Entries, List.LevelBytes, List.Doc, ChildAt;
    assert list.LevelStored(data, base, level);
    EntryAt(list, data, list.LevelStart(base, level), level, c + 1);
    DocAscends(list, level, c, c + 1);
    DocIsOneOf(list, level, c + 1);
    UvarintRoundTrip(data, Pos(list, base, level, c), list.Delta(level, c + 1));
    if level > 0 {
      ChildFollows(list, data, base, level, c + 1);
    }
  }

  ghost function AfterData(list: List, base: nat, level: nat, c: nat): nat
    requires list.Valid() && level < list.Levels() && 1 <= c <= list.Entries(level)
  {
    list.LevelStart(base, level) + list.DataEnd(level, c)
  }

  /** Behind the skip data of an entry stands its child pointer, and ends the entry. */
  ghost predicate ChildAt(list: List, data: seq<Byte>, base: nat, level: nat, c: nat)
    requires list.Valid() && 0 < level < list.Levels() && 1 <= c <= list.Entries(level)
  {
    && Child(list, base, level, c) >= list.LevelStart(base, level - 1)
    && UvarintAt(data, AfterData(list, base, level, c)) ==
         Some((Child(list, base, level, c) - list.LevelStart(base, level - 1), Pos(list, base, level, c)))
  }

  lemma ChildIndex(list: List, level: nat, c: nat)
    requires list.Valid() && level > 0 && 1 <= c <= list.Entries(level)
    ensures 1 <= c * list.multiplier <= list.Entries(level - 1)
  {
    Lower(list.Entries(level - 1), list.multiplier, c);
    ScaleUp(1, c, list.multiplier);
  }

  lemma ChildFollows(list: List, data: seq<Byte>, base: nat, level: nat, c: nat)
    requires list.Stored(data, base) && 0 < level < list.Levels() && 1 <= c <= list.Entries(level)
    ensures ChildAt(list, data, base, level, c)
  {
    hide Uvarint, UvarintAt, List.LevelStart, List.Entries, List.LevelBytes;
    assert list.LevelStored(data, base, level) && list.LevelStored(data, base, level - 1);
    EntryAt(list, data, list.LevelStart(base, level), level, c);
    var e := c * list.multiplier;
    ChildIndex(list, level, c);
    DataEndOrder(list, level - 1, e, e);
    UvarintRoundTrip(data, AfterData(list, base, level, c), list.DataEnd(level - 1, e));
  }

  /** A child pointer lies behind the position of the level below exactly when the
      entry it leads to does. */
  lemma ChildIsFurther(list: List, base: nat, k: nat, c: nat, d: nat)
    requires list.Valid() && 0 < k < list.Levels() && c <= list.Entries(k) && d <= list.Entries(k - 1)
    ensures Child(list, base, k, c) > Pos(list, base, k - 1, d) <==> c * list.multiplier > d
    ensures c * list.multiplier <= list.Entries(k - 1)
    ensures c > 0 ==>
              c * list.multiplier > 0 && Child(list, base, k, c) == AfterData(list, base, k - 1, c * list.multiplier)
    ensures list.Doc(k, c) == list.Doc(k - 1, c * list.multiplier)
    ensures c * list.Interval(k) == c * list.multiplier * list.Interval(k - 1)
  {
    Lower(list.Entries(k - 1), list.multiplier, c);
    Reassociate(c, list.multiplier, list.Interval(k - 1));
    if c > 0 {
      ScaleUp(1, c, list.multiplier);
      DataEndOrder(list, k - 1, c * list.multiplier, d);
    }
  }

  lemma ChildLeads(list: List, base: nat, k: nat, c: nat, d: nat)
    requires list.Valid() && 0 < k < list.Levels() && c <= list.Entries(k) && d <= list.Entries(k - 1)
    ensures Child(list, base, k, c) > RowAt(list, base, k - 1, d).stream <==> Led(list, c) > d
    ensures Led(list, c) > d ==> c >= 1
  {
    ChildIsFurther(list, base, k, c, d);
  }

  ghost predicate RowsAt(list: List, base: nat, at: seq<nat>, rows: seq<Row>)
    requires list.Valid() && |at| == |rows| == list.Levels()
  {
    forall l: nat | l < |at| :: at[l] <= list.Entries(l) + 1 && rows[l] == RowAt(list, base, l, at[l])
  }

  lemma RowsNext(list: List, base: nat, at: seq<nat>, rows: seq<Row>, level: nat, c: nat, rows': seq<Row>)
    requires list.Valid() && |at| == |rows| == list.Levels() && level < |at| && RowsAt(list, base, at, rows)
    requires c <= list.Entries(level) + 1 && rows' == rows[level := RowAt(list, base, level, c)]
    ensures RowsAt(list, base, at[level := c], rows')
  {
    hide RowAt;
  }

  // The reader object

  method FillIntervals(a: array<nat>, interval: nat, multiplier: nat)
    requires a.Length >= 1
    modifies a
    ensures forall l | 0 <= l < a.Length :: a[l] == IntervalAt(interval, multiplier, l)
  {
    a[0] := interval;
    var i := 1;
    while i < a.Length
      invariant 1 <= i <= a.Length
      invariant forall l | 0 <= l < i :: a[l] == IntervalAt(interval, multiplier, l)
    {
      a[i] := a[i - 1] * multiplier;
      i := i + 1;
    }
  }

  class MultiLevelSkipListReader {
    const data: seq<Byte>
    const maxNumberOfSkipLevels: nat
    const skipMultiplier: nat
    var numberOfSkipLevels: int
    var docCount: int
    var lastDoc: int
    var lastChildPointer: int
    const skipStream: array<nat>      // the position of each level's stream
    const skipPointer: array<nat>     // where each level starts
    const skipInterval: array<nat>
    const numSkipped: array<int>
    const skipDoc: array<int>
    const childPointer: array<int>

    ghost var list: List              // the list being read
    ghost var base: nat               // and where it stands in the file
    ghost var at: seq<nat>            // how many entries each level has read
    ghost var reached: int            // the greatest target so far, 0 at the start

    ghost predicate Arrays() {
      && skipStream.Length == skipPointer.Length == skipInterval.Length == numSkipped.Length
           == skipDoc.Length == childPointer.Length == maxNumberOfSkipLevels
      && maxNumberOfSkipLevels >= 1 && skipMultiplier >= 2
      && skipStream != skipPointer && skipStream != skipInterval && skipPointer != skipInterval
      && numSkipped != skipDoc && numSkipped != childPointer && skipDoc != childPointer
    }

    ghost function Tables(): set<object> {
      var pointers: set<object> := {skipStream, skipPointer, skipInterval};
      var numbers: set<object> := {numSkipped, skipDoc, childPointer};
      pointers + numbers
    }

    /** The intervals the constructor computes. */
    ghost predicate Intervals(interval: nat)
      requires Arrays()
      reads skipInterval
    {
      interval >= 1
        && forall l | 0 <= l < skipInterval.Length :: skipInterval[l] == IntervalAt(interval, skipMultiplier, l)
    }

    ghost predicate Opened()
      requires Arrays()
      reads this`list, this`base, this`docCount, skipPointer, skipInterval
    {
      && list.Stored(data, base) && list.multiplier == skipMultiplier && docCount == list.df
      && list.Levels() <= maxNumberOfSkipLevels == list.maxLevels
      && Intervals(list.interval)
      && forall l: nat | l < list.Levels() :: skipPointer[l] == list.LevelStart(base, l)
    }

    /** What the tables say of the first n levels. */
    ghost function Table(n: nat): (t: seq<Row>)
      requires Arrays() && n <= maxNumberOfSkipLevels
      reads skipStream, numSkipped, skipDoc, childPointer
      ensures |t| == n
    {
      seq(n, l requires 0 <= l < n reads skipStream, numSkipped, skipDoc, childPointer =>
        Row(skipStream[l], numSkipped[l], skipDoc[l], childPointer[l]))
    }

    ghost predicate Valid()
      reads this, Tables()
    {
      && Arrays() && Opened() && |at| == list.Levels()
      && RowsAt(list, base, at, Table(|at|))
    }

    /** Between two calls of SkipTo. */
    ghost predicate Ready()
      reads this, Tables()
    {
      && Valid() && AtRest(list, reached, at, numberOfSkipLevels) && 0 <= reached <= MAX_INT32
      && (reached > 0 ==> lastDoc == LastBelow(list.docs, reached) && lastChildPointer == 0)
    }

    constructor (data: seq<Byte>, maxSkipLevels: nat, interval: nat, multiplier: nat)
      requires maxSkipLevels >= 1 && interval >= 1 && multiplier >= 2
      ensures Arrays() && Intervals(interval) && fresh(Tables())
      ensures this.data == data && maxNumberOfSkipLevels == maxSkipLevels && skipMultiplier == multiplier
    {
      this.data := data;
      maxNumberOfSkipLevels := maxSkipLevels;
      skipMultiplier := multiplier;
      numberOfSkipLevels, docCount, lastDoc, lastChildPointer := 0, 0, 0, 0;
      skipStream := new nat[maxSkipLevels](_ => 0);
      skipPointer := new nat[maxSkipLevels](_ => 0);
      childPointer := new int[maxSkipLevels](_ => 0);
      numSkipped := new int[maxSkipLevels](_ => 0);
      skipDoc := new int[maxSkipLevels](_ => 0);
      skipInterval := new nat[maxSkipLevels](_ => 0);
      new;
      FillIntervals(skipInterval, interval, multiplier);
    }

    /** Init: zeroes the tables and finds the levels in the file. */
    method Init(skipPointer0: nat, df: nat, ghost newList: List)
      requires Arrays() && newList.Stored(data, skipPointer0) && newList.df == df
      requires newList.multiplier == skipMultiplier && newList.maxLevels == maxNumberOfSkipLevels
      requires Intervals(newList.interval)
      modifies this`docCount, this`numberOfSkipLevels, this`list, this`base, this`at, this`reached,
               skipPointer, skipStream, numSkipped, skipDoc, childPointer
      ensures Ready() && list == newList && reached == 0
    {
      list, base, reached := newList, skipPointer0, 0;
      at := seq(newList.Levels(), _ => 0);
      skipPointer[0] := skipPointer0;
      docCount := df;
      ZeroTables();
      LoadSkipLevels();
      AllAtStart(list, base, at, Table(|at|));
    }

    method ZeroTables()
      requires Arrays()
      modifies numSkipped, skipDoc, childPointer
      ensures forall l | 0 <= l < maxNumberOfSkipLevels :: numSkipped[l] == skipDoc[l] == childPointer[l] == 0
    {
      forall l | 0 <= l < skipDoc.Length {
        skipDoc[l] := 0;
      }
      forall l | 0 <= l < numSkipped.Length {
        numSkipped[l] := 0;
      }
      forall l | 0 <= l < childPointer.Length {
        childPointer[l] := 0;
      }
    }

    method LoadSkipLevels()
      requires Arrays() && list.Stored(data, base) && skipPointer[0] == base && docCount == list.df
      requires list.multiplier == skipMultiplier && list.maxLevels == maxNumberOfSkipLevels && Intervals(list.interval)
      modifies this`numberOfSkipLevels, skipPointer, skipStream
      ensures Opened() && numberOfSkipLevels == list.Levels()
      ensures forall l: nat | l < list.Levels() :: skipStream[l] == list.LevelStart(base, l)
    {
      var interval := skipInterval[0];
      assert interval == list.interval;
      if docCount <= interval {
        numberOfSkipLevels := 1;
      } else {
        var log := LogLoop(docCount / interval, skipMultiplier);
        numberOfSkipLevels := 1 + log;
      }
      if numberOfSkipLevels > maxNumberOfSkipLevels {
        numberOfSkipLevels := maxNumberOfSkipLevels;
      }
      skipStream[0] := skipPointer[0];
      FindLevels();
    }

    method FindLevels()
      requires Arrays() && list.Stored(data, base) && numberOfSkipLevels == list.Levels() <= maxNumberOfSkipLevels
      requires skipStream[0] == base
      modifies skipPointer, skipStream
      ensures forall l: nat | l < list.Levels() ::
                skipPointer[l] == list.LevelStart(base, l) && skipStream[l] == list.LevelStart(base, l)
    {
      hide List.LevelStart, List.LevelBefore, List.LevelBytes, List.Length, List.Entries, List.Levels;
      LevelsPositive(list);
      LevelPlaces(list, data, base, list.Levels() - 1);
      var i := numberOfSkipLevels - 1;
      while i > 0
        invariant 0 <= i < list.Levels() && skipStream[0] == list.LevelBefore(base, i)
        invariant forall l: nat | i < l < list.Levels() ::
                    skipPointer[l] == list.LevelStart(base, l) && skipStream[l] == list.LevelStart(base, l)
      {
        LevelPlaces(list, data, base, i);
        LevelPlaces(list, data, base, i - 1);
        var length := ReadUvarint(0);
        skipPointer[i] := skipStream[0];
        skipStream[i] := skipStream[0];
        skipStream[0] := skipStream[0] + length;
        i := i - 1;
      }
      LevelPlaces(list, data, base, 0);
      skipPointer[0] := skipStream[0];
    }

    /** readSkipData, readLevelLength and readChildPointer are all this. */
    method ReadUvarint(level: nat) returns (n: nat)
      requires level < skipStream.Length && UvarintAt(data, skipStream[level]).Some?
      modifies skipStream
      ensures UvarintAt(data, old(skipStream[level])) == Some((n, skipStream[level]))
      ensures skipStream[..] == old(skipStream[..])[level := skipStream[level]]
    {
      var (value, next) := UvarintAt(data, skipStream[level]).value;
      n := value;
      skipStream[level] := next;
    }

    method SetLastSkipData(level: nat)
      requires level < skipDoc.Length == childPointer.Length
      modifies this`lastDoc, this`lastChildPointer
      ensures lastDoc == skipDoc[level] && lastChildPointer == childPointer[level]
    {
      lastDoc := skipDoc[level];
      lastChildPointer := childPointer[level];
    }

    /** loadNextSkip: one more entry of a level, or its end. */
    method LoadNextSkip(level: nat) returns (ok: bool)
      requires Valid() && level < |at| && at[level] <= list.Entries(level)
      modifies this`lastDoc, this`lastChildPointer, this`numberOfSkipLevels, this`at,
               skipStream, numSkipped, skipDoc, childPointer
      ensures Valid() && at == old(at)[level := old(at[level]) + 1]
      ensures ok <==> at[level] <= list.Entries(level)
      ensures lastDoc == DocAt(list, level, at[level] - 1)
              && lastChildPointer == Child(list, base, level, at[level] - 1)
      ensures numberOfSkipLevels == if !ok && old(numberOfSkipLevels) > level then level else old(numberOfSkipLevels)
    {
      hide DocAt, Child, RowAt, Pos, List.LevelStored, List.Entries, Intervals;
      ghost var c := at[level];
      ok := AdvanceRow(level, c);
      RowsNext(list, base, at, old(Table(|at|)), level, c + 1, Table(|at|));
      at := at[level := c + 1];
    }

    /** The tables of one level; behind the last entry its end is found again and again. */
    method AdvanceRow(level: nat, ghost c: nat) returns (ok: bool)
      requires Arrays() && Opened() && level < list.Levels()
      requires Table(list.Levels())[level] == RowAt(list, base, level, c)
      modifies this`lastDoc, this`lastChildPointer, this`numberOfSkipLevels,
               skipStream, numSkipped, skipDoc, childPointer
      ensures Table(list.Levels()) == old(Table(list.Levels()))[level := RowAt(list, base, level, c + 1)]
      ensures ok <==> c + 1 <= list.Entries(level)
      ensures lastDoc == DocAt(list, level, c) && lastChildPointer == Child(list, base, level, c)
      ensures numberOfSkipLevels == if !ok && old(numberOfSkipLevels) > level then level else old(numberOfSkipLevels)
    {
      assert skipInterval[level] == list.Interval(level);
      hide DocAt, Child, Pos, UvarintAt, AfterData, List.LevelStored, List.Interval, List.Levels, List.LevelStart,
        List.Entries, IntervalAt;
      NextRow(list, data, base, level, c);
      SetLastSkipData(level);
      numSkipped[level] := numSkipped[level] + skipInterval[level];
      if numSkipped[level] > docCount {
        skipDoc[level] := MAX_INT32;
        if numberOfSkipLevels > level {
          numberOfSkipLevels := level;
        }
        return false;
      }
      ReadRow(level, c);
      return true;
    }

    /** The document and the child pointer of the next entry. */
    method ReadRow(level: nat, ghost c: nat)
      requires Arrays() && Opened() && level < list.Levels() && c + 1 <= list.Entries(level)
      requires Table(list.Levels())[level] ==
               RowAt(list, base, level, c).(numSkipped := (c + 1) * list.Interval(level))
      modifies skipStream, skipDoc, childPointer
      ensures Table(list.Levels()) == old(Table(list.Levels()))[level := RowAt(list, base, level, c + 1)]
    {
      hide DocAt, Child, Pos, UvarintAt, AfterData, List.LevelStored, List.Interval, List.Levels, List.LevelStart,
        List.Entries, IntervalAt;
      NextRow(list, data, base, level, c);
      var delta := ReadUvarint(level);
      skipDoc[level] := skipDoc[level] + delta;
      if level != 0 {
        ReadChildPointer(level, c + 1);
      }
    }

    /** The child pointer of an entry, behind its data. */
    method ReadChildPointer(level: nat, ghost c: nat)
      requires Arrays() && Opened() && 0 < level < list.Levels() && 1 <= c <= list.Entries(level)
      requires ChildAt(list, data, base, level, c) && skipStream[level] == AfterData(list, base, level, c)
      modifies skipStream, childPointer
      ensures skipStream[..] == old(skipStream[..])[level := Pos(list, base, level, c)]
      ensures childPointer[..] == old(childPointer[..])[level := Child(list, base, level, c)]
    {
      hide Child, Pos, UvarintAt, AfterData, List.LevelStored, List.Interval, List.LevelStart, List.Entries, IntervalAt;
      var pointer := ReadUvarint(level);
      childPointer[level] := pointer + skipPointer[level - 1];
    }

    /** seekChild: a level continues where the last child pointer leads. */
    method SeekChild(level: nat)
      requires Valid() && level + 1 < |at| && 2 <= at[level + 1] && at[level] <= list.Entries(level)
      requires lastDoc == DocAt(list, level + 1, at[level + 1] - 1)
      requires lastChildPointer == Child(list, base, level + 1, at[level + 1] - 1)
      modifies this`at, skipStream, numSkipped, skipDoc, childPointer
      ensures Valid() && at == old(at)[level := Led(list, old(at[level + 1]) - 1)]
    {
      hide DocAt, Child, Pos, List.LevelStored, List.Entries, Intervals;
      ghost var c := at[level + 1] - 1;
      ghost var e := Led(list, c);
      LowestHasNoChild(list, base, at[0]);
      assert Table(|at|)[0] == RowAt(list, base, 0, at[0]);
      MoveRow(level, c);
      RowsNext(list, base, at, old(Table(|at|)), level, e, Table(|at|));
      at := at[level := e];
    }

    method MoveRow(level: nat, ghost c: nat)
      requires Arrays() && Opened() && level + 1 < list.Levels() && 1 <= c <= list.Entries(level + 1)
      requires Table(list.Levels())[level + 1] == RowAt(list, base, level + 1, c + 1)
      requires lastDoc == DocAt(list, level + 1, c) && lastChildPointer == Child(list, base, level + 1, c)
      requires level == 0 ==> childPointer[0] == 0
      modifies skipStream, numSkipped, skipDoc, childPointer
      ensures Led(list, c) <= list.Entries(level)
      ensures Table(list.Levels()) == old(Table(list.Levels()))[level := RowAt(list, base, level, Led(list, c))]
    {
      assert skipInterval[level + 1] == list.Interval(level + 1);
      hide DocAt, Child, Pos, UvarintAt, AfterData, List.LevelStored, List.Interval, List.Levels, List.LevelStart,
        List.Entries, IntervalAt;
      ChildRow(list, data, base, level, c);
      NextProduct(c, list.Interval(level + 1));
      skipStream[level] := lastChildPointer;
      numSkipped[level] := numSkipped[level + 1] - skipInterval[level + 1];
      skipDoc[level] := lastDoc;
      if level > 0 {
        ReadChildPointer(level, Led(list, c));
      }
    }

    /** The walk up: the highest level whose entry lies before the target. */
    method FindTop(target: int) returns (level: nat)
      requires Ready()
      ensures level < |at| && (level > 0 ==> target > DocAt(list, level, at[level]))
      ensures level + 1 < numberOfSkipLevels ==> target <= DocAt(list, level + 1, at[level + 1])
    {
      hide DocAt, Child, Pos, List.LevelStored, List.Entries, List.Levels, List.Interval;
      LevelsPositive(list);
      level := 0;
      while level < numberOfSkipLevels - 1 && target > skipDoc[level + 1]
        invariant 0 <= level < |at|
        invariant level > 0 ==> target > DocAt(list, level, at[level])
      {
        level := level + 1;
        assert Table(|at|)[level] == RowAt(list, base, level, at[level]);
      }
      if level + 1 < numberOfSkipLevels {
        assert Table(|at|)[level + 1] == RowAt(list, base, level + 1, at[level + 1]);
      }
    }

    /** A level shows a document before the target exactly while it has to load. */
    lemma Shows(level: nat, target: int)
      requires Valid() && level < |at| && 0 < target <= MAX_INT32
      ensures skipDoc[level] == DocAt(list, level, at[level])
      ensures target > skipDoc[level] <==> at[level] <= list.Below(level, target)
      ensures list.Below(level, target) <= list.Entries(level)
    {
      assert Table(|at|)[level] == RowAt(list, base, level, at[level]);
      MustLoad(list, level, at[level], target);
      BelowMonotone(list, level, target, target);
    }

    method Load(level: nat, target: int, ghost before: int)
      requires Valid() && level < |at| && at[level] <= list.Below(level, target) <= list.Entries(level)
      requires Descending(list, base, before, target, at, numberOfSkipLevels, level, lastDoc, lastChildPointer)
      modifies this`lastDoc, this`lastChildPointer, this`numberOfSkipLevels, this`at,
               skipStream, numSkipped, skipDoc, childPointer
      ensures Valid() && at == old(at)[level := old(at)[level] + 1]
      ensures Descending(list, base, before, target, at, numberOfSkipLevels, level, lastDoc, lastChildPointer)
    {
      hide DocAt, Child, Table, List.LevelStored, List.Entries, List.Levels, List.Below, Descending;
      ghost var at0, levels0, doc0, child0 := at, numberOfSkipLevels, lastDoc, lastChildPointer;
      var ok := LoadNextSkip(level);
      LoadStep(list, base, before, target, at0, levels0, level, doc0, child0, numberOfSkipLevels);
    }

    /** The child pointer leads further exactly when its entry does. */
    lemma Compare(level: nat)
      requires Valid() && 0 < level < |at| && 1 <= at[level] && at[level - 1] <= list.Entries(level - 1)
      ensures Child(list, base, level, at[level] - 1) > skipStream[level - 1] <==>
                Led(list, at[level] - 1) > at[level - 1]
      ensures Led(list, at[level] - 1) > at[level - 1] ==> at[level] >= 2
    {
      hide RowAt, Child, Led, List.LevelStored, List.Entries, List.Levels;
      assert Table(|at|)[level - 1] == RowAt(list, base, level - 1, at[level - 1]);
      ChildLeads(list, base, level, at[level] - 1, at[level - 1]);
    }

    method GoDown(level: nat, target: int, ghost before: int)
      requires Valid() && 0 < level < |at| && at[level] == Rest(list, level, target)
      requires Descending(list, base, before, target, at, numberOfSkipLevels, level, lastDoc, lastChildPointer)
      modifies this`at, skipStream, numSkipped, skipDoc, childPointer
      ensures Valid() && |at| == |old(at)|
      ensures Descending(list, base, before, target, at, numberOfSkipLevels, level - 1, lastDoc, lastChildPointer)
    {
      hide DocAt, Child, Table, List.LevelStored, List.Entries, List.Levels, List.Below, Led, Descending, Rest;
      Arrived(list, base, before, target, at, numberOfSkipLevels, level, lastDoc, lastChildPointer);
      DescendStep(list, base, before, target, at, numberOfSkipLevels, level, lastDoc, lastChildPointer);
      Compare(level);
      if lastChildPointer > skipStream[level - 1] {
        SeekChild(level - 1);
      } else {
        assert at[level - 1 := at[level - 1]] == at;
      }
    }

    /** The descent: at every level, load until the target is not behind it. When
        the target moves nothing, it only walks out of the lowest level. */
    method Descend(top: nat, target: int, ghost before: int, ghost moving: bool)
      requires Valid() && top < |at|
      requires moving ==> 0 < target <= MAX_INT32
      requires moving ==> Descending(list, base, before, target, at, numberOfSkipLevels, top, lastDoc, lastChildPointer)
      requires !moving ==> top == 0 && target <= skipDoc[0]
      modifies this`lastDoc, this`lastChildPointer, this`numberOfSkipLevels, this`at,
               skipStream, numSkipped, skipDoc, childPointer
      ensures Valid() && |at| == |old(at)|
      ensures moving ==> Descending(list, base, before, target, at, numberOfSkipLevels, 0, lastDoc, lastChildPointer)
      ensures moving ==> at[0] == Rest(list, 0, target)
      ensures !moving ==> at == old(at) && numberOfSkipLevels == old(numberOfSkipLevels)
      ensures !moving ==> lastDoc == old(lastDoc) && lastChildPointer == old(lastChildPointer)
    {
      hide DocAt, Child, Table, List.LevelStored, List.Entries, List.Levels, List.Below, Descending, Rest, RowsAt;
      var level: int := top;
      while level >= 0
        invariant Valid() && -1 <= level < |at| == |old(at)|
        invariant moving ==> Descending(list, base, before, target, at, numberOfSkipLevels,
                                        if level >= 0 then level else 0, lastDoc, lastChildPointer)
        invariant moving && level == -1 ==> at[0] == Rest(list, 0, target)
        invariant !moving ==> level <= 0 && target <= skipDoc[0]
        invariant !moving ==> at == old(at) && numberOfSkipLevels == old(numberOfSkipLevels)
        invariant !moving ==> lastDoc == old(lastDoc) && lastChildPointer == old(lastChildPointer)
        decreases level, if level >= 0 then Rest(list, level, target) - at[level] else 0
      {
        if moving {
          Shows(level, target);
          Bounded(list, base, before, target, at, numberOfSkipLevels, level, lastDoc, lastChildPointer);
        }
        if target > skipDoc[level] {
          Load(level, target, before);
        } else {
          if level > 0 {
            GoDown(level, target, before);
          }
          level := level - 1;
        }
      }
    }

    /** SkipTo: whatever the targets were, the result and `lastDoc` are those of a
        scan of the lowest level up to the greatest of them, once one was positive. */
    method SkipTo(target: int) returns (r: int)
      requires Ready() && target <= MAX_INT32
      modifies this`lastDoc, this`lastChildPointer, this`numberOfSkipLevels, this`at, this`reached,
               skipStream, numSkipped, skipDoc, childPointer
      ensures Ready() && reached == if target > old(reached) then target else old(reached)
      ensures reached > 0 ==> r + 1 == CountBelow(list.docs, reached) * list.interval
      ensures reached > 0 ==> lastDoc == LastBelow(list.docs, reached)
      ensures reached == 0 ==> r + 1 == 0 - list.interval
    {
      hide DocAt, Child, Table, List.LevelStored, List.Entries, List.Levels, List.Below, Descending, RowsAt, LastBelow;
      ghost var moving := target > reached;
      var top := FindTop(target);
      if moving {
        if reached > 0 {
          LastAtRest(list, reached);
        }
        StartDescent(list, base, reached, target, at, numberOfSkipLevels, top, lastDoc, lastChildPointer);
      } else {
        Settled(top, target);
      }
      Descend(top, target, reached, moving);
      if moving {
        EndDescent(list, base, reached, target, at, numberOfSkipLevels, lastDoc, lastChildPointer);
        reached := target;
      }
      LowestRow();
      return numSkipped[0] - skipInterval[0] - 1;
    }

    /** SkipTo for a target above the largest 32-bit number, as far as `rounds` rounds of its
        loop lead: whatever they are, it is not done. Every level shows a smaller document,
        behind its last entry too, so the loop loads and never goes down. */
    method SkipToWithin(target: int, rounds: nat) returns (done: bool)
      requires Ready() && target > MAX_INT32
      modifies this`lastDoc, this`lastChildPointer, this`numberOfSkipLevels, this`at,
               skipStream, numSkipped, skipDoc, childPointer
      ensures !done
    {
      hide DocAt, Child, Pos, List.LevelStored, List.Entries, List.Levels, List.Below, List.Interval;
      var level: int := FindTop(target);
      ghost var top, c := level, at[level];
      assert Table(list.Levels())[level] == RowAt(list, base, level, c);
      var i := 0;
      while level >= 0 && i < rounds
        invariant Arrays() && Opened() && 0 <= top == level < list.Levels()
        invariant Table(list.Levels())[level] == RowAt(list, base, level, c)
      {
        ShowsLess(list, data, base, level, c);
        if target > skipDoc[level] {
          var _ := AdvanceRow(level, c);
          c := c + 1;
        } else {
          level := level - 1;
        }
        i := i + 1;
      }
      return level < 0;
    }

    lemma Settled(level: nat, target: int)
      requires Ready() && target <= reached && level < |at|
      ensures target <= DocAt(list, level, at[level])
      ensures target <= skipDoc[0]
    {
      LevelsPositive(list);
      assert Table(|at|)[0] == RowAt(list, base, 0, at[0]);
      RestLow(list, level, reached, reached);
      RestLow(list, 0, reached, reached);
      if reached > 0 {
        MustLoad(list, level, at[level], reached);
        MustLoad(list, 0, at[0], reached);
      } else {
        DocZero(list, level);
        DocZero(list, 0);
      }
    }

    lemma LowestRow()
      requires Valid() && AtRest(list, reached, at, numberOfSkipLevels)
      ensures numSkipped[0] == (if reached <= 0 then 0 else CountBelow(list.docs, reached) + 1) * list.interval
      ensures (CountBelow(list.docs, reached) + 1) * list.interval ==
              CountBelow(list.docs, reached) * list.interval + list.interval
      ensures skipInterval[0] == list.interval
    {
      LevelsPositive(list);
      assert Table(|at|)[0] == RowAt(list, base, 0, at[0]);
      NextProduct(CountBelow(list.docs, reached), list.interval);
    }
  }

  /** Before every level but the lowest stands its length, before the highest
      nothing else. */
  lemma LevelPlaces(list: List, data: seq<Byte>, base: nat, level: nat)
    requires list.Stored(data, base) && level < list.Levels()
    ensures level > 0 ==>
              UvarintAt(data, list.LevelBefore(base, level)) == Some((list.Length(level), list.LevelStart(base, level)))
    ensures level == 0 ==> list.LevelStart(base, 0) == list.LevelBefore(base, 0)
    ensures level + 1 == list.Levels() ==> list.LevelBefore(base, level) == base
    ensures level + 1 < list.Levels() ==>
              list.LevelBefore(base, level) == list.LevelStart(base, level + 1) + list.Length(level + 1)
  {
    hide List.LevelBytes, List.Entries;
    assert list.LevelStored(data, base, level);
    if level > 0 {
      UvarintRoundTrip(data, list.LevelBefore(base, level), list.Length(level));
    }
  }

  lemma AllAtStart(list: List, base: nat, at: seq<nat>, rows: seq<Row>)
    requires list.Valid() && |at| == |rows| == list.Levels()
    requires forall l: nat | l < |at| :: at[l] == 0 && rows[l] == Row(list.LevelStart(base, l), 0, 0, 0)
    ensures RowsAt(list, base, at, rows) && AtRest(list, 0, at, list.Levels())
  {
    forall l: nat | l < |at| ensures rows[l] == RowAt(list, base, l, 0) {
      DocZero(list, l);
      assert list.LevelBytes(l, 0) == [];
    }
  }

  /** A target beyond the greatest document number there is would never be found:
      once a level is exhausted, the load of SkipTo's loop repeats for ever. */
  lemma BeyondNeverEnds(list: List, level: nat, c: nat, target: int)
    requires list.Valid() && c > list.Entries(level)
    ensures target > DocAt(list, level, c) <==> target > MAX_INT32
    ensures target > MAX_INT32 ==> target > DocAt(list, level, c + 1)
    ensures (c + 1) * list.Interval(level) > list.df
  {
    IntervalFits(list, level, c + 1);
  }

  /** Any run of calls: every result is that of the scan up to the greatest target
      so far. */
  method SkipAll(reader: MultiLevelSkipListReader, targets: seq<int>) returns (results: seq<(int, int)>)
    requires reader.Ready() && forall t <- targets :: t <= MAX_INT32
    modifies reader, reader.Tables()
    ensures |results| == |targets|
    ensures forall i | 0 <= i < |targets| ::
              var reached := Greatest(old(reader.reached), targets[..i + 1]);
              reached > 0 ==>
                && results[i].0 + 1 == CountBelow(old(reader.list).docs, reached) * old(reader.list).interval
                && results[i].1 == LastBelow(old(reader.list).docs, reached)
  {
    hide CountBelow, LastBelow, MultiLevelSkipListReader.Ready;
    results := [];
    ghost var reached0 := reader.reached;
    var i := 0;
    while i < |targets|
      invariant 0 <= i <= |targets| && |results| == i && reader.Ready() && reader.list == old(reader.list)
      invariant reader.reached == Greatest(reached0, targets[..i])
      invariant forall k | 0 <= k < i ::
                  var reached := Greatest(reached0, targets[..k + 1]);
                  reached > 0 ==>
                    && results[k].0 + 1 == CountBelow(reader.list.docs, reached) * reader.list.interval
                    && results[k].1 == LastBelow(reader.list.docs, reached)
    {
      assert targets[i] in targets;
      var r := reader.SkipTo(targets[i]);
      GreatestNext(reached0, targets, i);
      results := results + [(r, reader.lastDoc)];
      i := i + 1;
    }
  }

  ghost function Greatest(first: int, targets: seq<int>): int {
    if targets == [] then first
    else
      var g := Greatest(first, targets[..|targets| - 1]);
      if targets[|targets| - 1] > g then targets[|targets| - 1] else g
  }

  lemma GreatestNext(first: int, targets: seq<int>, i: nat)
    requires i < |targets|
    ensures var g := Greatest(first, targets[..i]);
            Greatest(first, targets[..i + 1]) == if targets[i] > g then targets[i] else g
  {
    assert targets[..i + 1][..i] == targets[..i];
  }

  lemma Bounded(list: List, base: nat, before: int, target: int, at: seq<nat>, levels: int, k: nat,
                lastDoc: int, lastChild: int)
    requires list.Valid() && Descending(list, base, before, target, at, levels, k, lastDoc, lastChild)
    ensures k < |at| && at[k] <= Rest(list, k, target) == list.Below(k, target) + 1
  {
  }

  lemma Arrived(list: List, base: nat, before: int, target: int, at: seq<nat>, levels: int, k: nat,
                lastDoc: int, lastChild: int)
    requires list.Valid() && Descending(list, base, before, target, at, levels, k, lastDoc, lastChild)
    requires k > 0 && at[k] == Rest(list, k, target)
    ensures 1 <= at[k] <= list.Entries(k) + 1 && at[k - 1] <= list.Entries(k - 1)
    ensures lastDoc == DocAt(list, k, at[k] - 1) && lastChild == Child(list, base, k, at[k] - 1)
  {
    BelowMonotone(list, k, target, target);
    BelowMonotone(list, k - 1, target, target);
  }

  lemma LastAtRest(list: List, target: int)
    requires list.Valid() && target > 0
    ensures LastBelow(list.docs, target) == list.Doc(0, list.Below(0, target))
  {
  }

  lemma EndDescent(list: List, base: nat, before: int, target: int, at: seq<nat>, levels: int,
                   lastDoc: int, lastChild: int)
    requires list.Valid() && Descending(list, base, before, target, at, levels, 0, lastDoc, lastChild)
    requires at[0] == Rest(list, 0, target)
    ensures AtRest(list, target, at, levels)
    ensures lastDoc == LastBelow(list.docs, target) && lastChild == 0
  {
    LastAtRest(list, target);
    BelowMonotone(list, 0, target, target);
    LowestHasNoChild(list, base, at[0] - 1);
  }

  lemma LowestEnds(list: List, c: nat)
    requires list.Valid() && 1 <= c <= list.Entries(0)
    ensures list.DataEnd(0, c) == |list.LevelBytes(0, c)|
  {
    assert list.LevelBytes(0, c) == list.LevelBytes(0, c - 1) + list.Entry(0, c);
    assert list.Entry(0, c) == list.Data(0, c) + list.ChildBytes(0, c);
  }

  /** No level ever shows a document above the largest 32-bit number. */
  lemma ShowsLess(list: List, data: seq<Byte>, base: nat, level: nat, c: nat)
    requires list.Stored(data, base) && level < list.Levels()
    ensures RowAt(list, base, level, c).skipDoc <= MAX_INT32
  {
    if 1 <= c <= list.Entries(level) {
      DocIsOneOf(list, level, c);
    } else if c == 0 {
      DocZero(list, level);
    }
  }

  lemma DocAtIs(list: List, level: nat, c: nat)
    requires list.Valid() && c <= list.Entries(level)
    ensures DocAt(list, level, c) == list.Doc(level, c)
  {
  }

  /** The row of the entry a child pointer leads to, in terms of what the reader
      has and reads. */
  lemma ChildRow(list: List, data: seq<Byte>, base: nat, level: nat, c: nat)
    requires list.Stored(data, base) && level + 1 < list.Levels() && 1 <= c <= list.Entries(level + 1)
    ensures var e := Led(list, c);
            && 1 <= e <= list.Entries(level)
            && Child(list, base, level + 1, c) == AfterData(list, base, level, e)
            && DocAt(list, level + 1, c) == DocAt(list, level, e)
            && c * list.Interval(level + 1) == e * list.Interval(level)
            && (level == 0 ==> AfterData(list, base, level, e) == Pos(list, base, level, e)
                               && Child(list, base, level, e) == 0)
            && (level > 0 ==> ChildAt(list, data, base, level, e))
  {
    hide DocAt, List.LevelBytes, List.Interval, ChildAt, List.LevelStored, List.Entries;
    ChildIsFurther(list, base, level + 1, c, 0);
    DocAtIs(list, level + 1, c);
    DocAtIs(list, level, c * list.multiplier);
    if level == 0 {
      LowestEnds(list, c * list.multiplier);
    } else {
      ChildFollows(list, data, base, level, c * list.multiplier);
    }
  }

  /** From one row to the next, in terms of what the reader reads. */
  lemma NextRow(list: List, data: seq<Byte>, base: nat, level: nat, c: nat)
    requires list.Stored(data, base) && level < list.Levels()
    ensures c * list.Interval(level) + list.Interval(level) == (c + 1) * list.Interval(level)
    ensures (c + 1) * list.Interval(level) > list.df <==> c + 1 > list.Entries(level)
    ensures c + 1 > list.Entries(level) ==>
              RowAt(list, base, level, c + 1) ==
              RowAt(list, base, level, c).(numSkipped := (c + 1) * list.Interval(level), skipDoc := MAX_INT32)
    ensures c + 1 <= list.Entries(level) ==>
              && UvarintAt(data, Pos(list, base, level, c)) ==
                   Some((DocAt(list, level, c + 1) - DocAt(list, level, c), AfterData(list, base, level, c + 1)))
              && (level == 0 ==> AfterData(list, base, level, c + 1) == Pos(list, base, level, c + 1)
                                 && Child(list, base, level, c + 1) == Child(list, base, level, c))
              && (level > 0 ==> ChildAt(list, data, base, level, c + 1))
  {
    hide DocAt, Child, Pos, AfterData, UvarintAt, ChildAt, List.Interval, List.Entries, List.LevelStored;
    NextProduct(c, list.Interval(level));
    IntervalFits(list, level, c + 1);
    if c + 1 <= list.Entries(level) {
      NextEntry(list, data, base, level, c);
      LowestChild(list, base, level, c);
    } else {
      BehindLast(list, base, level, c);
    }
  }

  lemma LowestChild(list: List, base: nat, level: nat, c: nat)
    requires list.Valid() && level < list.Levels() && c + 1 <= list.Entries(level)
    ensures level == 0 ==> Child(list, base, level, c + 1) == Child(list, base, level, c)
  {
  }

  lemma BehindLast(list: List, base: nat, level: nat, c: nat)
    requires list.Valid() && level < list.Levels() && c + 1 > list.Entries(level)
    ensures Pos(list, base, level, c + 1) == Pos(list, base, level, c)
    ensures DocAt(list, level, c + 1) == MAX_INT32 && Child(list, base, level, c + 1) == Child(list, base, level, c)
  {
  }

  lemma NextProduct(c: nat, i: nat)
    ensures c * i + i == (c + 1) * i
  {
  }
}
