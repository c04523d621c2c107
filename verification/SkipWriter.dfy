/** The multi-level skip list writer (core/index/multilevelskiplistwriter.go): the
    level count of its constructor, and the buffering and writing that its layout
    comments define. */
module SkipWriter {
  import opened Arithmetic
  import opened Bytes
  import opened Varint
  import opened SkipLayout

  /** How many entries a level holds once the lowest holds n. */
  function Up(n: nat, multiplier: nat, level: nat): nat
    requires multiplier >= 2
  {
    if level == 0 then n else Up(n, multiplier, level - 1) / multiplier
  }

  lemma {:induction false} UpIsEntries(list: List, level: nat)
    requires list.multiplier >= 2
    ensures Up(|list.docs|, list.multiplier, level) == list.Entries(level)
  {
    if level > 0 {
      UpIsEntries(list, level - 1);
    }
  }

  lemma {:induction false} UpMonotone(m: nat, n: nat, multiplier: nat, level: nat)
    requires multiplier >= 2 && m <= n
    ensures Up(m, multiplier, level) <= Up(n, multiplier, level)
  {
    if level > 0 {
      UpMonotone(m, n, multiplier, level - 1);
      DivMonotone(Up(m, multiplier, level - 1), Up(n, multiplier, level - 1), multiplier);
    }
  }

  /** The n-th entry of the lowest level also stands on this one. */
  ghost predicate Reaches(n: nat, multiplier: nat, level: nat)
    requires multiplier >= 2
  {
    level == 0 || (Reaches(n, multiplier, level - 1) && Up(n, multiplier, level - 1) % multiplier == 0)
  }

  lemma NextMultiple(a: nat, m: nat)
    requires m >= 2
    ensures (a + 1) / m == a / m + (if (a + 1) % m == 0 then 1 else 0)
    ensures (a + 1) % m == 0 ==> (a + 1) / m * m == a + 1
  {
    var q, r := a / m, a % m;
    assert a == q * m + r;
    if r + 1 == m {
      assert a + 1 == (q + 1) * m;
      Quotient(a + 1, m, q + 1, 0);
    } else {
      Quotient(a + 1, m, q, r + 1);
    }
  }

  /** The n-th entry reaches exactly the first `count` of the levels. */
  ghost predicate ReachesFirst(n: nat, multiplier: nat, count: nat, levels: nat)
    requires multiplier >= 2
  {
    forall l: nat | l < levels :: Reaches(n, multiplier, l) <==> l < count
  }

  /** One more entry below adds one to exactly the levels it reaches. */
  lemma {:induction false} UpNext(k: nat, multiplier: nat, level: nat)
    requires multiplier >= 2
    ensures Up(k + 1, multiplier, level) ==
            Up(k, multiplier, level) + (if Reaches(k + 1, multiplier, level) then 1 else 0)
  {
    if level > 0 {
      UpNext(k, multiplier, level - 1);
      NextMultiple(Up(k, multiplier, level - 1), multiplier);
    }
  }

  lemma {:induction false} NotReached(n: nat, multiplier: nat, level: nat, higher: nat)
    requires multiplier >= 2 && level <= higher && !Reaches(n, multiplier, level)
    ensures !Reaches(n, multiplier, higher)
  {
    if level < higher {
      NotReached(n, multiplier, level, higher - 1);
    }
  }

  lemma LowestReached(n: nat, multiplier: nat)
    requires multiplier >= 2
    ensures ReachesFirst(n, multiplier, 1, 1) && Up(n, multiplier, 0) == n
  {
  }

  lemma OneLevelMore(n: nat, multiplier: nat, count: nat)
    requires multiplier >= 2 && count >= 1 && ReachesFirst(n, multiplier, count, count)
    requires Up(n, multiplier, count - 1) % multiplier == 0
    ensures ReachesFirst(n, multiplier, count + 1, count + 1)
  {
    assert Reaches(n, multiplier, count - 1);
  }

  /** An entry that does not go on from a level reaches none above it. */
  lemma StopsThere(n: nat, multiplier: nat, count: nat, levels: nat)
    requires multiplier >= 2 && 1 <= count <= levels && ReachesFirst(n, multiplier, count, count)
    requires count < levels ==> Up(n, multiplier, count - 1) % multiplier != 0
    ensures ReachesFirst(n, multiplier, count, levels)
  {
    forall l: nat | l < levels ensures Reaches(n, multiplier, l) <==> l < count {
      if count <= l {
        NotReached(n, multiplier, count, l);
      }
    }
  }

  /** On every level it reaches, the n-th entry is entry Up(n), and its child the
      same entry one level down. */
  lemma {:induction false} SameEntry(list: List, k: nat, level: nat)
    requires list.Valid() && k < |list.docs| && Reaches(k + 1, list.multiplier, level)
    ensures 1 <= Up(k + 1, list.multiplier, level) <= list.Entries(level)
    ensures list.Doc(level, Up(k + 1, list.multiplier, level)) == list.docs[k]
    ensures level > 0 ==>
              Up(k + 1, list.multiplier, level) * list.multiplier == Up(k + 1, list.multiplier, level - 1)
  {
    UpMonotone(k + 1, |list.docs|, list.multiplier, level);
    UpIsEntries(list, level);
    UpNext(k, list.multiplier, level);
    if level > 0 {
      SameEntry(list, k, level - 1);
      UpNext(k, list.multiplier, level - 1);
      NextMultiple(Up(k, list.multiplier, level - 1), list.multiplier);
    }
  }

  /** A level's buffer and the document last written to it. */
  datatype Buffer = Buffer(bytes: seq<Byte>, lastDoc: nat)

  ghost function BufferAt(list: List, level: nat, c: nat): Buffer
    requires list.Valid() && c <= list.Entries(level)
  {
    Buffer(list.LevelBytes(level, c), list.Doc(level, c))
  }

  ghost predicate Holds(list: List, level: nat, k: nat, b: Buffer)
    requires list.Valid()
  {
    Up(k, list.multiplier, level) <= list.Entries(level) && b == BufferAt(list, level, Up(k, list.multiplier, level))
  }

  class SkipListWriter {
    const skipInterval: nat
    const skipMultiplier: nat
    const numberOfSkipLevels: nat
    var buffers: seq<Buffer>
    ghost const list: List            // the list that is going to be written
    ghost var written: nat            // how many of its entries have been

    ghost predicate Valid()
      reads this
    {
      && list.Valid() && skipInterval == list.interval && skipMultiplier == list.multiplier
      && |buffers| == numberOfSkipLevels >= 1 && written <= |list.docs|
      && forall l: nat | l < numberOfSkipLevels :: Holds(list, l, written, buffers[l])
    }

    /** The level count is computed from an upper bound on the postings: the levels of which
        an entry fits into it. */
    constructor (skipInterval: nat, skipMultiplier: nat, maxSkipLevels: nat, df: nat, ghost list: List)
      requires list.Valid() && list.df <= df
      requires skipInterval == list.interval && skipMultiplier == list.multiplier && maxSkipLevels == list.maxLevels
      ensures Valid() && written == 0 && this.list == list
      ensures list.Levels() <= numberOfSkipLevels <= list.maxLevels
      ensures forall level: nat | 0 < level < list.maxLevels ::
                level < numberOfSkipLevels <==> IntervalAt(list.interval, list.multiplier, level) <= df
    {
      this.skipInterval := skipInterval;
      this.skipMultiplier := skipMultiplier;
      var levels: nat := 1;
      if df > skipInterval {
        var log := LogLoop(df / skipInterval, skipMultiplier);
        levels := 1 + log;
      }
      if levels > maxSkipLevels {
        levels := maxSkipLevels;
      }
      numberOfSkipLevels := levels;
      buffers := seq(levels, _ => Buffer([], 0));
      this.list := list;
      written := 0;
      EnoughLevels(list, df);
      forall level: nat | 0 < level < list.maxLevels
        ensures level < levels <==> IntervalAt(list.interval, list.multiplier, level) <= df
      {
        LevelsReach(list, df, level);
      }
      EmptyBuffers(list, levels);
    }

    /** writeSkipData: the distance from the level's last document. */
    method WriteSkipData(level: nat, doc: nat)
      requires level < |buffers| && buffers[level].lastDoc <= doc
      modifies this`buffers
      ensures buffers ==
              old(buffers)[level := Buffer(old(buffers[level].bytes) + Uvarint(doc - old(buffers[level].lastDoc)), doc)]
    {
      buffers := buffers[level := Buffer(buffers[level].bytes + Uvarint(doc - buffers[level].lastDoc), doc)];
    }

    method WriteChildPointer(level: nat, childPointer: nat)
      requires level < |buffers|
      modifies this`buffers
      ensures buffers ==
              old(buffers)[level := old(buffers[level]).(bytes := old(buffers[level]).bytes + Uvarint(childPointer))]
    {
      buffers := buffers[level := buffers[level].(bytes := buffers[level].bytes + Uvarint(childPointer))];
    }

    /** The number of levels an entry goes to. */
    method CountLevels(df: nat) returns (numLevels: nat)
      requires Valid() && written < |list.docs| && df == (written + 1) * skipInterval
      ensures 1 <= numLevels <= numberOfSkipLevels
      ensures ReachesFirst(written + 1, skipMultiplier, numLevels, numberOfSkipLevels)
    {
      hide Holds, Reaches, ReachesFirst, Ascending;
      numLevels := 1;
      Quotient(df, skipInterval, written + 1, 0);
      ghost var entry := written + 1;
      var n := df / skipInterval;
      LowestReached(entry, skipMultiplier);
      while n % skipMultiplier == 0 && numLevels < numberOfSkipLevels
        invariant 1 <= numLevels <= numberOfSkipLevels && n == Up(entry, skipMultiplier, numLevels - 1)
        invariant ReachesFirst(entry, skipMultiplier, numLevels, numLevels)
      {
        OneLevelMore(entry, skipMultiplier, numLevels);
        numLevels := numLevels + 1;
        n := n / skipMultiplier;
      }
      StopsThere(entry, skipMultiplier, numLevels, numberOfSkipLevels);
    }

    /** BufferSkip: the entry after the next interval of postings. */
    method BufferSkip(doc: nat, df: nat)
      requires Valid() && written < |list.docs| && doc == list.docs[written] && df == (written + 1) * skipInterval
      modifies this`buffers, this`written
      ensures Valid() && written == old(written) + 1
    {
      hide List.LevelBytes, List.Doc, BufferAt, List.Entries, Up, Reaches;
      var numLevels := CountLevels(df);
      ghost var k, m := written, skipMultiplier;
      var childPointer: nat := 0;
      var level := 0;
      while level < numLevels
        invariant 0 <= level <= numLevels && |buffers| == numberOfSkipLevels && written == k
        invariant forall l: nat | l < level :: Holds(list, l, k + 1, buffers[l])
        invariant forall l: nat | level <= l < numberOfSkipLevels :: Holds(list, l, k, buffers[l])
        invariant level > 0 ==> DataEnds(list, level - 1, k, childPointer)
      {
        assert Holds(list, level, k, buffers[level]);
        NextBuffer(list, level, k, buffers[level]);
        WriteSkipData(level, doc);
        var newChildPointer := |buffers[level].bytes|;
        if level != 0 {
          WriteChildPointer(level, childPointer);
        }
        childPointer := newChildPointer;
        level := level + 1;
      }
      forall l: nat | numLevels <= l < numberOfSkipLevels ensures Holds(list, l, k + 1, buffers[l]) {
        UpNext(k, m, l);
        assert Holds(list, l, k, buffers[l]);
      }
      written := written + 1;
    }

    /** WriteSkip: the levels from the highest down, each but the lowest after its
        length, empty ones left out. */
    method WriteSkip(out: DataOutput) returns (skipPointer: nat)
      requires Valid() && written == |list.docs| && list.Levels() <= numberOfSkipLevels <= list.maxLevels
      modifies out
      ensures skipPointer == |old(out.data)| && out.data == old(out.data) + From(list, 0)
    {
      hide List.LevelBytes, List.Entries, List.Levels, Uvarint;
      LevelsPositive(list);
      skipPointer := out.GetFilePointer();
      var level := numberOfSkipLevels - 1;
      TopIsEmpty(list, numberOfSkipLevels, out.data);
      while level > 0
        invariant 0 <= level < numberOfSkipLevels
        invariant out.data == old(out.data) + From(list, level + 1)
      {
        FullBuffer(list, level, buffers[level]);
        if |buffers[level].bytes| > 0 {
          out.WriteUvarint(|buffers[level].bytes|);
          out.Write(buffers[level].bytes);
        }
        NextFrom(list, level, old(out.data));
        level := level - 1;
      }
      FullBuffer(list, 0, buffers[0]);
      out.Write(buffers[0].bytes);
      NextFrom(list, 0, old(out.data));
    }
  }

  ghost predicate DataEnds(list: List, level: nat, k: nat, end: nat)
    requires list.Valid()
  {
    var c := Up(k + 1, list.multiplier, level);
    1 <= c <= list.Entries(level) && end == list.DataEnd(level, c)
  }

  /** What one entry appends to the buffer of a level it reaches. */
  lemma NextBuffer(list: List, level: nat, k: nat, b: Buffer)
    requires list.Valid() && k < |list.docs| && Reaches(k + 1, list.multiplier, level) && Holds(list, level, k, b)
    ensures b.lastDoc <= list.docs[k]
    ensures DataEnds(list, level, k, |b.bytes + Uvarint(list.docs[k] - b.lastDoc)|)
    ensures level == 0 ==> Holds(list, level, k + 1, Buffer(b.bytes + Uvarint(list.docs[k] - b.lastDoc), list.docs[k]))
    ensures level > 0 ==>
              forall p: nat | DataEnds(list, level - 1, k, p) ::
                Holds(list, level, k + 1,
                      Buffer(b.bytes + Uvarint(list.docs[k] - b.lastDoc) + Uvarint(p), list.docs[k]))
  {
    hide List.Doc, Uvarint, List.Entries, Reaches, Up;
    SameEntry(list, k, level);
    UpNext(k, list.multiplier, level);
    var c := Up(k + 1, list.multiplier, level);
    DocAscends(list, level, c - 1, c);
    var data := Uvarint(list.docs[k] - b.lastDoc);
    assert list.Data(level, c) == data;
    assert list.LevelBytes(level, c) == b.bytes + (data + list.ChildBytes(level, c));
    Associate(b.bytes, data, list.ChildBytes(level, c));
    if level == 0 {
      assert b.bytes + data + [] == b.bytes + data;
    } else {
      forall p: nat | DataEnds(list, level - 1, k, p)
        ensures Holds(list, level, k + 1, Buffer(b.bytes + data + Uvarint(p), list.docs[k]))
      {
        assert list.ChildBytes(level, c) == Uvarint(p);
      }
    }
  }

  lemma EmptyBuffers(list: List, levels: nat)
    requires list.Valid()
    ensures forall l: nat | l < levels :: Holds(list, l, 0, Buffer([], 0))
  {
    forall l: nat | l < levels ensures Holds(list, l, 0, Buffer([], 0)) {
      UpZero(list.multiplier, l);
      DocZero(list, l);
    }
  }

  lemma {:induction false} UpZero(multiplier: nat, level: nat)
    requires multiplier >= 2
    ensures Up(0, multiplier, level) == 0
  {
    if level > 0 {
      UpZero(multiplier, level - 1);
    }
  }

  lemma {:induction false} LogMonotone(a: nat, b: nat, base: nat)
    requires base >= 2 && a <= b
    ensures Log(a, base) <= Log(b, base)
    decreases a
  {
    if a >= base {
      DivMonotone(a, b, base);
      DivMod(a, base);
      LogMonotone(a / base, b / base, base);
    }
  }

  /** A level count computed from an upper bound is no smaller than the list's own. */
  lemma EnoughLevels(list: List, df: nat)
    requires list.Valid() && list.df <= df
    ensures var n := if df > list.interval then 1 + Log(df / list.interval, list.multiplier) else 1;
            (if n > list.maxLevels then list.maxLevels else n) >= list.Levels()
  {
    DivMonotone(list.df, df, list.interval);
    LogMonotone(list.df / list.interval, df / list.interval, list.multiplier);
  }

  /** A level is counted exactly when one of its entries fits into the bound. */
  lemma LevelsReach(list: List, df: nat, level: nat)
    requires list.Valid() && 0 < level < list.maxLevels
    ensures level < list.(df := df).Levels() <==> IntervalAt(list.interval, list.multiplier, level) <= df
  {
    var full := list.(df := df, docs := seq(df / list.interval, _ => 0));
    LevelsAreInhabited(full, level);
    IntervalFits(full, level, 1);
  }

  /** The bytes of all levels from one up, the highest first. */
  function From(list: List, level: nat): seq<Byte>
    requires list.Valid()
    decreases list.Levels() - level
  {
    if level >= list.Levels() then []
    else
      From(list, level + 1)
      + (if level > 0 then Uvarint(list.Length(level)) else []) + list.LevelBytes(level, list.Entries(level))
  }

  lemma FullBuffer(list: List, level: nat, b: Buffer)
    requires list.Valid() && level < list.maxLevels && Holds(list, level, |list.docs|, b)
    ensures b.bytes == list.LevelBytes(level, list.Entries(level)) && |b.bytes| == list.Length(level)
    ensures |b.bytes| > 0 <==> 1 <= list.Entries(level)
    ensures level > 0 ==> (|b.bytes| > 0 <==> level < list.Levels())
  {
    UpIsEntries(list, level);
    if list.Entries(level) >= 1 {
      LevelGrows(list, level, 1, list.Entries(level));
      assert |list.LevelBytes(level, 1)| >= |list.Data(level, 1)| > 0;
    }
    if level > 0 {
      LevelsAreInhabited(list, level);
    }
  }

  lemma TopIsEmpty(list: List, level: nat, data: seq<Byte>)
    requires list.Valid() && level >= list.Levels()
    ensures data + From(list, level) == data
  {
  }

  lemma NextFrom(list: List, level: nat, data: seq<Byte>)
    requires list.Valid()
    ensures level >= list.Levels() ==> data + From(list, level) == data + From(list, level + 1)
    ensures level < list.Levels() ==>
              data + From(list, level) ==
              data + From(list, level + 1) + (if level > 0 then Uvarint(list.Length(level)) else [])
              + list.LevelBytes(level, list.Entries(level))
  {
  }
}
