/** What the skip list writer writes is what the skip list reader reads. */
module SkipRoundTrip {
  import opened Bytes
  import opened Varint
  import opened SkipLayout
  import opened SkipWriter
  import opened SkipReader

  lemma {:induction false} BeforeIsFrom(list: List, base: nat, level: nat)
    requires list.Valid() && level < list.Levels()
    ensures list.LevelBefore(base, level) == base + |From(list, level + 1)|
    decreases list.Levels() - level
  {
    hide List.LevelBytes, List.Entries, List.Levels;
    if level + 1 < list.Levels() {
      BeforeIsFrom(list, base, level + 1);
      FromLength(list, level + 1);
    }
  }

  lemma LevelStands(list: List, data: seq<Byte>, base: nat, level: nat)
    requires list.Valid() && level < list.Levels() && At(data, base, From(list, level))
    ensures list.LevelStored(data, base, level) && At(data, base, From(list, level + 1))
  {
    hide List.LevelBytes, List.Entries, List.Levels, List.LevelBefore;
    var length := if level > 0 then Uvarint(list.Length(level)) else [];
    AtSplit(data, base, From(list, level + 1) + length, list.LevelBytes(level, list.Entries(level)));
    AtSplit(data, base, From(list, level + 1), length);
    BeforeIsFrom(list, base, level);
  }

  /** Every level stands where the reader looks for it. */
  lemma {:induction false} LevelsStand(list: List, data: seq<Byte>, base: nat, level: nat)
    requires list.Valid() && level < list.Levels() && At(data, base, From(list, level))
    ensures forall l: nat | level <= l < list.Levels() :: list.LevelStored(data, base, l)
    decreases list.Levels() - level
  {
    hide List.LevelStored, From, At, List.Levels;
    LevelStands(list, data, base, level);
    if level + 1 < list.Levels() {
      LevelsStand(list, data, base, level + 1);
    }
  }

  lemma FromLength(list: List, level: nat)
    requires list.Valid() && level < list.Levels()
    ensures |From(list, level)| ==
            |From(list, level + 1)| + (if level > 0 then |Uvarint(list.Length(level))| else 0) + list.Length(level)
  {
  }

  /** The layouts of writer and reader agree. */
  lemma WrittenIsStored(list: List, data: seq<Byte>, base: nat)
    requires list.Valid() && At(data, base, From(list, 0)) && |data| < 0x8000_0000_0000_0000
    requires forall k: nat | k < |list.docs| :: list.docs[k] <= MAX_INT32
    ensures list.Stored(data, base)
  {
    LevelsPositive(list);
    LevelsStand(list, data, base, 0);
  }

  /** Writing a skip list of any postings and reading it back: any run of SkipTo
      calls gives the results of a linear scan of the entries. */
  method WriteAndSkip(interval: nat, multiplier: nat, maxLevels: nat, maxDf: nat, df: nat, docs: seq<nat>,
                      out: DataOutput, targets: seq<int>) returns (results: seq<(int, int)>)
    requires interval >= 1 && multiplier >= 2 && maxLevels >= 1 && df <= maxDf
    requires |docs| == df / interval && Ascending(docs) && forall k: nat | k < |docs| :: docs[k] <= MAX_INT32
    requires forall t <- targets :: t <= MAX_INT32
    modifies out
    ensures |out.data| < 0x8000_0000_0000_0000 ==>
              && |results| == |targets|
              && forall i | 0 <= i < |targets| ::
                   var reached := Greatest(0, targets[..i + 1]);
                   reached > 0 ==>
                     && results[i].0 + 1 == CountBelow(docs, reached) * interval
                     && results[i].1 == LastBelow(docs, reached)
  {
    ghost var list := List(interval, multiplier, maxLevels, df, docs);
    var writer := new SkipListWriter(interval, multiplier, maxLevels, maxDf, list);
    var k := 0;
    while k < |docs|
      invariant 0 <= k <= |docs| && fresh(writer) && writer.Valid() && writer.list == list && writer.written == k
    {
      writer.BufferSkip(docs[k], (k + 1) * interval);
      k := k + 1;
    }
    var skipPointer := writer.WriteSkip(out);
    if |out.data| >= 0x8000_0000_0000_0000 {
      return [];
    }
    AtAppend(out.data[..skipPointer], From(list, 0), []);
    assert out.data == out.data[..skipPointer] + From(list, 0) + [];
    WrittenIsStored(list, out.data, skipPointer);
    var reader := new MultiLevelSkipListReader(out.data, maxLevels, interval, multiplier);
    reader.Init(skipPointer, df, list);
    results := SkipAll(reader, targets);
  }
}
