/** The layout of a multi-level skip list (core/index/multilevelskiplistwriter.go):
    which entries stand on which level, and where. */
module SkipLayout {
  import opened Arithmetic
  import opened Bytes
  import opened Varint

  const MAX_INT32: int := 0x7fff_ffff

  /** The skip entries of one postings list: the document of every interval-th
      posting, `df` postings in all, on at most `maxLevels` levels. */
  datatype List = List(interval: nat, multiplier: nat, maxLevels: nat, df: nat, docs: seq<nat>) {
    ghost predicate Valid() {
      && interval >= 1 && multiplier >= 2 && maxLevels >= 1
      && |docs| == df / interval
      && Ascending(docs)
    }

    /** How many entries a level holds. */
    function Entries(level: nat): nat
      requires multiplier >= 2
    {
      if level == 0 then |docs| else Entries(level - 1) / multiplier
    }

    /** How many postings one entry of a level skips. */
    function Interval(level: nat): nat {
      IntervalAt(interval, multiplier, level)
    }

    /** The document of an entry, counted from 1; before the first stands 0. */
    function Doc(level: nat, c: nat): nat
      requires multiplier >= 2 && c <= Entries(level)
      decreases level
    {
      if level == 0 then (if c == 0 then 0 else docs[c - 1])
      else
        Lower(Entries(level - 1), multiplier, c);
        Doc(level - 1, c * multiplier)
    }

    /** How many entries of a level stand before `target`. */
    function Below(level: nat, target: int): nat
      requires multiplier >= 2
    {
      if level == 0 then CountBelow(docs, target) else Below(level - 1, target) / multiplier
    }

    /** The number of levels, written as well as read. */
    function Levels(): nat
      requires interval >= 1 && multiplier >= 2 && maxLevels >= 1
    {
      var n := if df <= interval then 1 else 1 + Log(df / interval, multiplier);
      if n > maxLevels then maxLevels else n
    }

    // Bytes

    /** The distance of an entry's document from the one before it. */
    function Delta(level: nat, c: nat): int
      requires multiplier >= 2 && 1 <= c <= Entries(level)
    {
      Doc(level, c) - Doc(level, c - 1)
    }

    /** One entry: its skip data, and above the lowest level the place where the
        skip data of the corresponding entry one level down ends. */
    function Entry(level: nat, c: nat): seq<Byte>
      requires Valid() && 1 <= c <= Entries(level)
      decreases level, c, 1
    {
      Data(level, c) + ChildBytes(level, c)
    }

    function Data(level: nat, c: nat): seq<Byte>
      requires Valid() && 1 <= c <= Entries(level)
    {
      DocAscends(this, level, c - 1, c);
      Uvarint(Delta(level, c))
    }

    function ChildBytes(level: nat, c: nat): seq<Byte>
      requires Valid() && 1 <= c <= Entries(level)
      decreases level, c, 0
    {
      if level == 0 then []
      else
        Lower(Entries(level - 1), multiplier, c);
        Uvarint(DataEnd(level - 1, c * multiplier))
    }

    function LevelBytes(level: nat, c: nat): seq<Byte>
      requires Valid() && c <= Entries(level)
      decreases level, c, 2
    {
      if c == 0 then [] else LevelBytes(level, c - 1) + Entry(level, c)
    }

    /** Where on its level the skip data of an entry ends. */
    function DataEnd(level: nat, c: nat): nat
      requires Valid() && 1 <= c <= Entries(level)
      decreases level, c, 0
    {
      |LevelBytes(level, c - 1)| + |Data(level, c)|
    }

    function Length(level: nat): nat
      requires Valid()
    {
      |LevelBytes(level, Entries(level))|
    }

    // The file: the highest level first, every level but the lowest after its length

    function LevelBefore(base: nat, level: nat): nat
      requires Valid() && level < Levels()
      decreases Levels() - level, 0
    {
      if level + 1 == Levels() then base else LevelStart(base, level + 1) + Length(level + 1)
    }

    function LevelStart(base: nat, level: nat): nat
      requires Valid() && level < Levels()
      decreases Levels() - level, 1
    {
      LevelBefore(base, level) + (if level > 0 then |Uvarint(Length(level))| else 0)
    }

    ghost predicate LevelStored(data: seq<Byte>, base: nat, level: nat)
      requires Valid() && level < Levels()
    {
      && At(data, LevelStart(base, level), LevelBytes(level, Entries(level)))
      && (level > 0 ==> At(data, LevelBefore(base, level), Uvarint(Length(level))))
    }

    /** The list stands in the file from `base` on. */
    ghost predicate Stored(data: seq<Byte>, base: nat) {
      && Valid() && |data| < 0x8000_0000_0000_0000
      && (forall k: nat | k < |docs| :: docs[k] <= MAX_INT32)
      && forall level: nat | level < Levels() :: LevelStored(data, base, level)
    }
  }

  function IntervalAt(interval: nat, multiplier: nat, level: nat): nat {
    if level == 0 then interval else IntervalAt(interval, multiplier, level - 1) * multiplier
  }

  ghost predicate Ascending(docs: seq<nat>) {
    forall i: nat, j: nat | i <= j < |docs| :: docs[i] <= docs[j]
  }

  /** The linear scan: how many of the documents stand before `target`. */
  function CountBelow(docs: seq<nat>, target: int): (n: nat)
    ensures n <= |docs|
  {
    if docs == [] then 0
    else CountBelow(docs[..|docs| - 1], target) + (if docs[|docs| - 1] < target then 1 else 0)
  }

  /** The document the linear scan stops at: the last one before `target`. */
  function LastBelow(docs: seq<nat>, target: int): nat {
    var n := CountBelow(docs, target);
    if n == 0 then 0 else docs[n - 1]
  }

  /** util.Log */
  function Log(x: nat, base: nat): nat
    requires base >= 2
  {
    DivMod(x, base);
    if x < base then 0 else 1 + Log(x / base, base)
  }

  method LogLoop(x0: nat, base: nat) returns (ret: nat)
    requires base >= 2
    ensures ret == Log(x0, base)
  {
    var x := x0;
    ret := 0;
    while x >= base
      invariant x >= 0 && ret + Log(x, base) == Log(x0, base)
      decreases x
    {
      DivMod(x, base);
      x := x / base;
      ret := ret + 1;
    }
  }

  // Arithmetic

  lemma Lower(n: nat, m: nat, c: nat)
    requires m >= 1
    ensures c <= n / m <==> c * m <= n
  {
    var d := n / m;
    assert d * m <= n < d * m + m;
    if c <= d {
      assert c * m <= d * m;
    } else {
      assert (d + 1) * m <= c * m;
    }
  }

  // Which entries stand before a target

  lemma {:induction false} CountIsPrefix(docs: seq<nat>, target: int, k: nat)
    requires Ascending(docs) && k < |docs|
    ensures docs[k] < target <==> k < CountBelow(docs, target)
  {
    var n := |docs| - 1;
    var init := docs[..n];
    assert Ascending(init);
    if k < n {
      CountIsPrefix(init, target, k);
    }
    if docs[n] < target && n > 0 {
      assert init[n - 1] <= docs[n];
      CountIsPrefix(init, target, n - 1);
    }
  }

  lemma {:induction false} CountMonotone(docs: seq<nat>, t: int, u: int)
    requires t <= u
    ensures CountBelow(docs, t) <= CountBelow(docs, u)
  {
    if docs != [] {
      CountMonotone(docs[..|docs| - 1], t, u);
    }
  }

  lemma {:induction false} CountNone(docs: seq<nat>, t: int)
    requires t <= 0
    ensures CountBelow(docs, t) == 0
  {
    if docs != [] {
      CountNone(docs[..|docs| - 1], t);
    }
  }

  lemma DivMonotone(a: nat, b: nat, m: nat)
    requires a <= b && m >= 1
    ensures a / m <= b / m
  {
    Lower(b, m, a / m);
    Lower(a, m, a / m);
  }

  lemma {:induction false} BelowMonotone(list: List, level: nat, t: int, u: int)
    requires list.multiplier >= 2 && t <= u
    ensures list.Below(level, t) <= list.Below(level, u) <= list.Entries(level)
  {
    if level == 0 {
      CountMonotone(list.docs, t, u);
    } else {
      BelowMonotone(list, level - 1, t, u);
      DivMonotone(list.Below(level - 1, t), list.Below(level - 1, u), list.multiplier);
      DivMonotone(list.Below(level - 1, u), list.Entries(level - 1), list.multiplier);
    }
  }

  /** The entries of a level before a target are its first `Below(level, target)`. */
  lemma {:induction false} BelowIsPrefix(list: List, level: nat, target: int, c: nat)
    requires list.Valid() && 1 <= c <= list.Entries(level)
    ensures list.Doc(level, c) < target <==> c <= list.Below(level, target)
  {
    if level == 0 {
      CountIsPrefix(list.docs, target, c - 1);
    } else {
      var m := list.multiplier;
      Lower(list.Entries(level - 1), m, c);
      Lower(list.Below(level - 1, target), m, c);
      ScaleUp(1, c, m);
      BelowIsPrefix(list, level - 1, target, c * m);
    }
  }

  lemma {:induction false} DocZero(list: List, level: nat)
    requires list.Valid()
    ensures list.Doc(level, 0) == 0
  {
    if level > 0 {
      DocZero(list, level - 1);
    }
  }

  lemma {:induction false} DocAscends(list: List, level: nat, c: nat, d: nat)
    requires list.Valid() && c <= d <= list.Entries(level)
    ensures list.Doc(level, c) <= list.Doc(level, d)
  {
    if level > 0 {
      Lower(list.Entries(level - 1), list.multiplier, c);
      Lower(list.Entries(level - 1), list.multiplier, d);
      ScaleUp(c, d, list.multiplier);
      DocAscends(list, level - 1, c * list.multiplier, d * list.multiplier);
    }
  }

  lemma {:induction false} DocIsOneOf(list: List, level: nat, c: nat)
    requires list.Valid() && 1 <= c <= list.Entries(level)
    ensures list.Doc(level, c) in list.docs
  {
    if level > 0 {
      Lower(list.Entries(level - 1), list.multiplier, c);
      ScaleUp(1, c, list.multiplier);
      DocIsOneOf(list, level - 1, c * list.multiplier);
    }
  }

  /** An entry exists exactly while the postings it skips do. */
  lemma {:induction false} IntervalFits(list: List, level: nat, c: nat)
    requires list.Valid()
    ensures c * list.Interval(level) <= list.df <==> c <= list.Entries(level)
  {
    if level == 0 {
      Lower(list.df, list.interval, c);
    } else {
      var m := list.multiplier;
      Lower(list.Entries(level - 1), m, c);
      IntervalFits(list, level - 1, c * m);
      assert c * list.Interval(level) == c * m * list.Interval(level - 1) by {
        Reassociate(c, m, list.Interval(level - 1));
      }
    }
  }

  lemma Reassociate(a: nat, b: nat, c: nat)
    ensures a * (c * b) == a * b * c
  {
  }

  /** A level holds an entry exactly when its number is at most the logarithm. */
  lemma {:induction false} LevelInhabited(list: List, level: nat)
    requires list.multiplier >= 2 && |list.docs| >= 1
    ensures list.Entries(level) >= 1 <==> level <= Log(|list.docs|, list.multiplier)
  {
    LogDrops(list, |list.docs|, 0, level);
  }

  lemma {:induction false} LogDrops(list: List, x: nat, from: nat, level: nat)
    requires list.multiplier >= 2 && from <= level && x == list.Entries(from) && x >= 1
    ensures list.Entries(level) >= 1 <==> level - from <= Log(x, list.multiplier)
    decreases level - from
  {
    if from < level {
      var y := x / list.multiplier;
      if x >= list.multiplier {
        Lower(x, list.multiplier, 1);
        LogDrops(list, y, from + 1, level);
      } else {
        Lower(x, list.multiplier, 1);
        NoEntries(list, from + 1, level);
      }
    }
  }

  lemma {:induction false} NoEntries(list: List, from: nat, level: nat)
    requires list.multiplier >= 2 && from <= level && list.Entries(from) == 0
    ensures list.Entries(level) == 0
    decreases level - from
  {
    if from < level {
      NoEntries(list, from + 1, level);
    }
  }

  lemma LevelsPositive(list: List)
    requires list.Valid()
    ensures list.Levels() >= 1
  {
  }

  /** Above the lowest, the levels of a list are exactly those that hold an entry,
      up to the greatest number of levels. */
  lemma LevelsAreInhabited(list: List, level: nat)
    requires list.Valid() && 0 < level < list.maxLevels
    ensures level < list.Levels() <==> list.Entries(level) >= 1
  {
    var m := list.multiplier;
    if list.df <= list.interval {
      Lower(list.df, list.interval, 2);
      assert |list.docs| < 2;
      if |list.docs| == 1 {
        LevelInhabited(list, level);
      } else {
        NoEntries(list, 0, level);
      }
    } else {
      Lower(list.df, list.interval, 1);
      LevelInhabited(list, level);
    }
  }

  // Positions on a level

  lemma {:induction false} LevelGrows(list: List, level: nat, c: nat, d: nat)
    requires list.Valid() && c <= d <= list.Entries(level)
    ensures |list.LevelBytes(level, c)| <= |list.LevelBytes(level, d)|
    decreases d
  {
    if c < d {
      LevelGrows(list, level, c, d - 1);
    }
  }

  /** The skip data of an entry ends behind entry c exactly when it stands behind it. */
  lemma DataEndOrder(list: List, level: nat, e: nat, c: nat)
    requires list.Valid() && 1 <= e <= list.Entries(level) && c <= list.Entries(level)
    ensures list.DataEnd(level, e) > |list.LevelBytes(level, c)| <==> e > c
    ensures list.DataEnd(level, e) <= list.Length(level)
  {
    LevelGrows(list, level, e, list.Entries(level));
    if e > c {
      LevelGrows(list, level, c, e - 1);
    } else {
      LevelGrows(list, level, e, c);
    }
  }

  lemma {:induction false} LevelSplit(list: List, data: seq<Byte>, pos: nat, level: nat, c: nat, d: nat)
    requires list.Valid() && c <= d <= list.Entries(level) && At(data, pos, list.LevelBytes(level, d))
    ensures At(data, pos, list.LevelBytes(level, c))
    decreases d
  {
    if c < d {
      AtSplit(data, pos, list.LevelBytes(level, d - 1), list.Entry(level, d));
      LevelSplit(list, data, pos, level, c, d - 1);
    }
  }

  /** Where an entry's two numbers stand. */
  lemma EntryAt(list: List, data: seq<Byte>, pos: nat, level: nat, c: nat)
    requires list.Valid() && 1 <= c <= list.Entries(level)
    requires At(data, pos, list.LevelBytes(level, list.Entries(level)))
    ensures At(data, pos + |list.LevelBytes(level, c - 1)|, list.Data(level, c))
    ensures At(data, pos + list.DataEnd(level, c), list.ChildBytes(level, c))
    ensures |list.LevelBytes(level, c)| == list.DataEnd(level, c) + |list.ChildBytes(level, c)|
  {
    LevelSplit(list, data, pos, level, c, list.Entries(level));
    AtSplit(data, pos, list.LevelBytes(level, c - 1), list.Entry(level, c));
    AtSplit(data, pos + |list.LevelBytes(level, c - 1)|, list.Data(level, c), list.ChildBytes(level, c));
  }
}
