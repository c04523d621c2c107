/** The text of a tree's index (BKDWriter.writeIndex) and its inverse
    (PointsReader.initReader). */
module BkdIndex {
  import opened Bytes
  import opened Text
  import opened Numerals
  import opened Powers
  import opened BkdLayout
  import opened BkdTree

  const NUM_DATA_DIMS := "num data dims "
  const NUM_INDEX_DIMS := "num index dims "
  const BYTES_PER_DIM := "bytes per dim "
  const MAX_LEAF_POINTS := "max leaf points "
  const INDEX_COUNT := "index count "
  const MIN_VALUE := "min value "
  const MAX_VALUE := "max value "
  const POINT_COUNT := "point count "
  const DOC_COUNT := "doc count "
  const BLOCK_FP := "  block fp "
  const SPLIT_COUNT := "split count "
  const SPLIT_DIM := "  split dim "
  const SPLIT_VALUE := "  split value "

  /** What the index of one tree says. */
  datatype Index = Index(cfg: Config, min: seq<Byte>, max: seq<Byte>, pointCount: nat, docCount: nat,
                         fps: seq<nat>, splits: seq<Split>)
  {
    ghost predicate Valid() {
      && cfg.Valid() && IsBound(cfg, min) && IsBound(cfg, max)
      && |fps| == |splits| && AllSplits(cfg, splits)
    }

    /** Every number in the index fits the 64 bits it is parsed with. */
    ghost predicate Fits64() {
      && Fits(cfg.numDims, 64) && Fits(cfg.numIndexDims, 64) && Fits(cfg.bytesPerDim, 64)
      && Fits(cfg.maxPointsInLeafNode, 64) && Fits(|fps|, 64) && Fits(pointCount, 64) && Fits(docCount, 64)
      && AllFit(fps)
    }
  }

  function HeaderLine(ix: Index, k: nat): string {
    match k
    case 0 => NUM_DATA_DIMS + Itoa(ix.cfg.numDims)
    case 1 => NUM_INDEX_DIMS + Itoa(ix.cfg.numIndexDims)
    case 2 => BYTES_PER_DIM + Itoa(ix.cfg.bytesPerDim)
    case 3 => MAX_LEAF_POINTS + Itoa(ix.cfg.maxPointsInLeafNode)
    case 4 => INDEX_COUNT + Itoa(|ix.fps|)
    case 5 => MIN_VALUE + BytesToString(ix.min)
    case 6 => MAX_VALUE + BytesToString(ix.max)
    case 7 => POINT_COUNT + Itoa(ix.pointCount)
    case _ => DOC_COUNT + Itoa(ix.docCount)
  }

  function Header(ix: Index): (lines: seq<string>)
    ensures |lines| == 9
  {
    seq(9, k requires 0 <= k < 9 => HeaderLine(ix, k))
  }

  function FpLines(fps: seq<nat>): (lines: seq<string>)
    ensures |lines| == |fps|
  {
    seq(|fps|, i requires 0 <= i < |fps| => BLOCK_FP + Itoa(fps[i]))
  }

  function CountLines(n: nat): seq<string> {
    [SPLIT_COUNT + Itoa(n)]
  }

  function SplitLines(split: Split): seq<string> {
    [SPLIT_DIM + Itoa(split.dim), SPLIT_VALUE + BytesToString(split.value)]
  }

  function SplitText(split: Split): string {
    Print(SplitLines(split))
  }

  function SplitTexts(splits: seq<Split>): (texts: seq<string>)
    ensures |texts| == |splits|
  {
    seq(|splits|, i requires 0 <= i < |splits| => SplitText(splits[i]))
  }

  function IndexText(ix: Index): string {
    Print(Header(ix)) + Print(FpLines(ix.fps)) + Print(CountLines(|ix.splits|)) + Flat(SplitTexts(ix.splits))
  }

  /** writeIndex */
  method WriteIndex(out: IndexOutput, ix: Index)
    modifies out
    ensures old(out.data) <= out.data && At(out.data, |old(out.data)|, IndexText(ix))
  {
    ghost var start := out.data;
    WriteHeader(out, ix);
    WriteBlockFPs(out, ix.fps);
    out.PutLine(SPLIT_COUNT, Itoa(|ix.splits|), out.data, CountLines(|ix.splits|), 0);
    PrintAll(CountLines(|ix.splits|));
    WriteSplits(out, ix.splits);
    AssociateFour(start, Print(Header(ix)), Print(FpLines(ix.fps)), Print(CountLines(|ix.splits|)),
                  Flat(SplitTexts(ix.splits)));
    AtAppend(start, IndexText(ix), []);
    assert start + IndexText(ix) + [] == start + IndexText(ix);
  }

  lemma AssociateFour(s: string, a: string, b: string, c: string, d: string)
    ensures s + a + b + c + d == s + (a + b + c + d)
  {
  }

  method WriteHeader(out: IndexOutput, ix: Index)
    modifies out
    ensures out.data == old(out.data) + Print(Header(ix))
  {
    ghost var start, lines := out.data, Header(ix);
    assert start + Print(lines[..0]) == start;
    out.PutLine(NUM_DATA_DIMS, Itoa(ix.cfg.numDims), start, lines, 0);
    out.PutLine(NUM_INDEX_DIMS, Itoa(ix.cfg.numIndexDims), start, lines, 1);
    out.PutLine(BYTES_PER_DIM, Itoa(ix.cfg.bytesPerDim), start, lines, 2);
    out.PutLine(MAX_LEAF_POINTS, Itoa(ix.cfg.maxPointsInLeafNode), start, lines, 3);
    out.PutLine(INDEX_COUNT, Itoa(|ix.fps|), start, lines, 4);
    out.PutLine(MIN_VALUE, BytesToString(ix.min), start, lines, 5);
    out.PutLine(MAX_VALUE, BytesToString(ix.max), start, lines, 6);
    out.PutLine(POINT_COUNT, Itoa(ix.pointCount), start, lines, 7);
    out.PutLine(DOC_COUNT, Itoa(ix.docCount), start, lines, 8);
    PrintAll(lines);
  }

  method WriteBlockFPs(out: IndexOutput, fps: seq<nat>)
    modifies out
    ensures out.data == old(out.data) + Print(FpLines(fps))
  {
    ghost var start, lines := out.data, FpLines(fps);
    assert start + Print(lines[..0]) == start;
    var i := 0;
    while i < |fps|
      invariant 0 <= i <= |fps|
      invariant out.data == start + Print(lines[..i])
    {
      out.PutLine(BLOCK_FP, Itoa(fps[i]), start, lines, i);
      i := i + 1;
    }
    PrintAll(lines);
  }

  method WriteSplit(out: IndexOutput, split: Split)
    modifies out
    ensures out.data == old(out.data) + SplitText(split)
  {
    ghost var start, lines := out.data, SplitLines(split);
    assert start + Print(lines[..0]) == start;
    out.PutLine(SPLIT_DIM, Itoa(split.dim), start, lines, 0);
    out.PutLine(SPLIT_VALUE, BytesToString(split.value), start, lines, 1);
    PrintAll(lines);
  }

  method WriteSplits(out: IndexOutput, splits: seq<Split>)
    modifies out
    ensures out.data == old(out.data) + Flat(SplitTexts(splits))
  {
    ghost var texts := SplitTexts(splits);
    var i := 0;
    while i < |splits|
      invariant 0 <= i <= |splits|
      invariant out.data == old(out.data) + Flat(texts[..i])
    {
      WriteSplit(out, splits[i]);
      FlatNext(texts, i);
      Associate(old(out.data), Flat(texts[..i]), SplitText(splits[i]));
      i := i + 1;
    }
    FlatAll(texts);
  }

  // The reader's copy of the splits: with one index dimension an entry is the
  // bare value, otherwise it starts with the dimension

  function BytesPerIndexEntry(cfg: Config): nat {
    if cfg.numIndexDims == 1 then cfg.bytesPerDim else cfg.bytesPerDim + 1
  }

  function ReaderSplit(cfg: Config, packed: seq<Byte>, leaves: nat, node: nat): Split
    requires |packed| == leaves * BytesPerIndexEntry(cfg) && node < leaves
  {
    DimFits(node, leaves, BytesPerIndexEntry(cfg));
    var entry := Dim(packed, node, BytesPerIndexEntry(cfg));
    if cfg.numIndexDims == 1 then Split(0, entry) else Split(entry[0], entry[1..])
  }

  /** The bytes of one reader entry. */
  function ReaderEntry(cfg: Config, split: Split): seq<Byte>
    requires split.dim < 256
  {
    if cfg.numIndexDims == 1 then split.value else [split.dim] + split.value
  }

  lemma ReaderSplitOfEntry(cfg: Config, packed: seq<Byte>, leaves: nat, node: nat, split: Split)
    requires |packed| == leaves * BytesPerIndexEntry(cfg) && node < leaves
    requires cfg.Valid() && split.dim < cfg.numIndexDims && |split.value| == cfg.bytesPerDim
    requires node * BytesPerIndexEntry(cfg) + BytesPerIndexEntry(cfg) <= |packed|
    requires Dim(packed, node, BytesPerIndexEntry(cfg)) == ReaderEntry(cfg, split)
    ensures ReaderSplit(cfg, packed, leaves, node) == split
  {
    assert ([split.dim] + split.value)[1..] == split.value;
  }

  /** What initReader hands to NewBKDReader. */
  datatype BKDReader = BKDReader(cfg: Config, fps: seq<nat>, splitPackedValues: seq<Byte>,
                                 min: seq<Byte>, max: seq<Byte>, pointCount: int, docCount: int)
  {
    ghost predicate Valid() {
      && cfg.Valid() && IsBound(cfg, min) && IsBound(cfg, max)
      && 1 <= |fps| && |splitPackedValues| == |fps| * BytesPerIndexEntry(cfg)
      && forall node: nat | 1 <= node < |fps| ::
           ReaderSplit(cfg, splitPackedValues, |fps|, node).dim < cfg.numIndexDims
    }

    /** Valid, as a check. */
    predicate Usable()
      ensures Usable() == Valid()
    {
      && cfg.Valid() && |min| == |max| == cfg.PackedIndexBytesLength()
      && 1 <= |fps| && |splitPackedValues| == |fps| * BytesPerIndexEntry(cfg)
      && forall node | 1 <= node < |fps| ::
           ReaderSplit(cfg, splitPackedValues, |fps|, node).dim < cfg.numIndexDims
    }
  }

  /** Reader and index agree: the same split at every node, both for the entries
      without and for the entries with a dimension byte. */
  ghost predicate Describes(r: BKDReader, ix: Index) {
    && r.cfg == ix.cfg && r.fps == ix.fps && r.min == ix.min && r.max == ix.max
    && r.pointCount == ix.pointCount && r.docCount == ix.docCount
    && HoldsSplits(r.cfg, r.splitPackedValues, ix.splits)
  }

  ghost predicate HoldsSplits(cfg: Config, packed: seq<Byte>, splits: seq<Split>) {
    && |packed| == |splits| * BytesPerIndexEntry(cfg)
    && forall node: nat | node < |splits| :: ReaderSplit(cfg, packed, |splits|, node) == splits[node]
  }

  method ReadBytes(input: IndexInput, tag: string, ghost start: nat, ghost lines: seq<string>, ghost k: nat,
                   ghost bs: seq<Byte>) returns (v: Option<seq<Byte>>)
    modifies input
    ensures Reading(input.data, start, lines, old(input.pos), k) && k < |lines|
            && lines[k] == tag + BytesToString(bs) && bs != [] ==>
              v == Some(bs) && Reading(input.data, start, lines, input.pos, k + 1)
  {
    OwnLabel(tag, BytesToString(bs));
    HexRoundTrip(bs);
    var s := input.ReadLabel(tag, start, lines, k);
    if s.None? {
      return None;
    }
    return StringToBytes(s.value);
  }

  /** Go's copy: as much as fits. */
  method CopyAt(dst: array<Byte>, at: nat, src: seq<Byte>)
    requires at <= dst.Length
    modifies dst
    ensures var n := if at + |src| <= dst.Length then |src| else dst.Length - at;
            dst[..] == old(dst[..at]) + src[..n] + old(dst[at + n..])
  {
    var n := if at + |src| <= dst.Length then |src| else dst.Length - at;
    forall i | 0 <= i < n {
      dst[at + i] := src[i];
    }
  }

  ghost predicate AllFit(fps: seq<nat>) {
    forall k | 0 <= k < |fps| :: Fits(fps[k], 64)
  }

  method ReadBlockFPs(input: IndexInput, count: nat, ghost fps: seq<nat>) returns (r: Option<seq<nat>>)
    modifies input
    ensures At(input.data, old(input.pos), Print(FpLines(fps))) && count == |fps| && AllFit(fps) ==>
              r == Some(fps) && input.pos == old(input.pos) + |Print(FpLines(fps))|
  {
    hide At;
    ghost var start, lines := input.pos, FpLines(fps);
    ghost var good := At(input.data, start, Print(lines)) && count == |fps| && AllFit(fps);
    if good {
      StartReading(input.data, start, lines);
    }
    var read: seq<nat> := [];
    var i := 0;
    while i < count
      invariant 0 <= i <= count
      invariant good ==> Reading(input.data, start, lines, input.pos, i) && read == fps[..i]
    {
      var fp := input.ReadInt(BLOCK_FP, start, lines, i, if good then fps[i] else 0);
      if fp.None? || fp.value < 0 {
        return None;
      }
      read := read + [fp.value];
      i := i + 1;
    }
    assert fps[..|fps|] == fps;
    PrintAll(lines);
    return Some(read);
  }

  method ReadCount(input: IndexInput, ghost n: nat) returns (r: Option<int>)
    modifies input
    ensures At(input.data, old(input.pos), Print(CountLines(n))) && Fits(n, 64) ==>
              r == Some(n) && input.pos == old(input.pos) + |Print(CountLines(n))|
  {
    ghost var start, lines := input.pos, CountLines(n);
    if At(input.data, start, Print(lines)) {
      StartReading(input.data, start, lines);
    }
    r := input.ReadInt(SPLIT_COUNT, start, lines, 0, n);
    PrintAll(lines);
  }

  /** One entry of the reader's split table. */
  method StoreSplit(cfg: Config, packed: array<Byte>, address: nat, dim: int, value: seq<Byte>)
    requires cfg.Valid() && address + BytesPerIndexEntry(cfg) <= packed.Length
    modifies packed
    ensures 0 <= dim < cfg.numIndexDims && |value| == cfg.bytesPerDim ==>
              packed[..] == old(packed[..address]) + ReaderEntry(cfg, Split(dim, value))
                            + old(packed[address + BytesPerIndexEntry(cfg)..])
  {
    if cfg.numIndexDims != 1 {
      StoreTagged(packed, address, dim % 256, value);
    } else {
      CopyAt(packed, address, value);
    }
  }

  method StoreTagged(packed: array<Byte>, address: nat, dim: Byte, value: seq<Byte>)
    requires address + 1 <= packed.Length
    modifies packed
    ensures address + 1 + |value| <= packed.Length ==>
              packed[..] == old(packed[..address]) + ([dim] + value) + old(packed[address + 1 + |value|..])
  {
    ghost var was := packed[..];
    packed[address] := dim;
    assert packed[..] == was[..address] + [dim] + was[address + 1..];
    CopyAt(packed, address + 1, value);
    if address + 1 + |value| <= packed.Length {
      SpliceTwice(was, address, dim, value);
    }
  }

  lemma SpliceTwice(was: seq<Byte>, at: nat, d: Byte, value: seq<Byte>)
    requires at + 1 + |value| <= |was|
    ensures var once := was[..at] + [d] + was[at + 1..];
            once[..at + 1] + value + once[at + 1 + |value|..] == was[..at] + ([d] + value) + was[at + 1 + |value|..]
  {
  }

  lemma SmallFits(n: nat)
    requires n < 256
    ensures Fits(n, 64)
  {
    LargePowers();
  }

  method ReadSplit(input: IndexInput, ghost split: Split) returns (dim: Option<int>, value: Option<seq<Byte>>)
    modifies input
    ensures At(input.data, old(input.pos), SplitText(split)) && split.dim < 256 && split.value != [] ==>
              dim == Some(split.dim) && value == Some(split.value)
              && input.pos == old(input.pos) + |SplitText(split)|
  {
    ghost var start, lines := input.pos, SplitLines(split);
    if At(input.data, start, SplitText(split)) && split.dim < 256 {
      StartReading(input.data, start, lines);
      SmallFits(split.dim);
    }
    value := None;
    dim := input.ReadInt(SPLIT_DIM, start, lines, 0, split.dim);
    if dim.Some? {
      value := ReadBytes(input, SPLIT_VALUE, start, lines, 1, split.value);
    }
    PrintAll(lines);
  }

  method ReadSplits(input: IndexInput, cfg: Config, count: nat, ghost splits: seq<Split>)
    returns (r: Option<seq<Byte>>)
    requires cfg.Valid()
    modifies input
    ensures At(input.data, old(input.pos), Flat(SplitTexts(splits))) && count == |splits| && AllSplits(cfg, splits) ==>
              r.Some? && HoldsSplits(cfg, r.value, splits)
  {
    var packed := new Byte[count * BytesPerIndexEntry(cfg)](_ => 0);
    var ok := FillSplits(input, cfg, count, packed, splits);
    if !ok {
      return None;
    }
    return Some(packed[..]);
  }

  method FillSplits(input: IndexInput, cfg: Config, count: nat, packed: array<Byte>, ghost splits: seq<Split>)
    returns (ok: bool)
    requires cfg.Valid() && packed.Length == count * BytesPerIndexEntry(cfg)
    modifies input, packed
    ensures At(input.data, old(input.pos), Flat(SplitTexts(splits))) && count == |splits| && AllSplits(cfg, splits) ==>
              ok && HoldsSplits(cfg, packed[..], splits)
  {
    ghost var start := input.pos;
    ghost var good := At(input.data, start, Flat(SplitTexts(splits))) && count == |splits| && AllSplits(cfg, splits);
    var i := 0;
    while i < count
      invariant 0 <= i <= count
      invariant good ==> SplitAt(input.data, start, splits, i, input.pos) && Stored(cfg, packed[..], splits, i)
    {
      ok := FillSplit(input, cfg, count, packed, i, splits, start, good);
      if !ok {
        return;
      }
      i := i + 1;
    }
    if good {
      StoredAll(cfg, packed[..], splits);
    }
    return true;
  }

  method FillSplit(input: IndexInput, cfg: Config, ghost count: nat, packed: array<Byte>, i: nat,
                   ghost splits: seq<Split>, ghost start: nat, ghost good: bool)
    returns (ok: bool)
    requires cfg.Valid() && packed.Length == count * BytesPerIndexEntry(cfg) && i < count
    requires good ==>
              i < |splits| && SplitAt(input.data, start, splits, i, input.pos) && Stored(cfg, packed[..], splits, i)
    modifies input, packed
    ensures good ==>
              ok && SplitAt(input.data, start, splits, i + 1, input.pos) && Stored(cfg, packed[..], splits, i + 1)
  {
    hide SplitAt, Stored, At, SplitText, SplitTexts, Flat, ReaderEntry, BytesPerIndexEntry;
    ghost var split := if good then splits[i] else Split(0, []);
    ghost var was := packed[..];
    if good {
      NextSplit(input.data, start, splits, i, input.pos);
      StoredSplit(cfg, was, splits, i);
    }
    var dim, value := ReadSplit(input, split);
    if dim.None? || value.None? {
      return false;
    }
    DimFits(i, count, BytesPerIndexEntry(cfg));
    StoreSplit(cfg, packed, i * BytesPerIndexEntry(cfg), dim.value, value.value);
    if good {
      StoredNext(cfg, was, packed[..], splits, i);
    }
    return true;
  }

  /** Reading stands before entry i of the split table. */
  ghost predicate SplitAt(f: string, start: nat, splits: seq<Split>, i: nat, pos: nat) {
    && At(f, start, Flat(SplitTexts(splits))) && i <= |splits|
    && pos == start + |Flat(SplitTexts(splits)[..i])|
  }

  lemma NextSplit(f: string, start: nat, splits: seq<Split>, i: nat, pos: nat)
    requires SplitAt(f, start, splits, i, pos) && i < |splits|
    ensures At(f, pos, SplitText(splits[i]))
    ensures SplitAt(f, start, splits, i + 1, pos + |SplitText(splits[i])|)
  {
    AtFlat(f, start, SplitTexts(splits), i);
    FlatNext(SplitTexts(splits), i);
  }

  ghost predicate AllSplits(cfg: Config, splits: seq<Split>) {
    && cfg.Valid()
    && forall k | 0 <= k < |splits| :: splits[k].dim < cfg.numIndexDims && |splits[k].value| == cfg.bytesPerDim
  }

  /** The first i entries of the reader's table hold the splits. */
  ghost predicate Stored(cfg: Config, packed: seq<Byte>, splits: seq<Split>, i: nat) {
    && AllSplits(cfg, splits) && i <= |splits|
    && |packed| == |splits| * BytesPerIndexEntry(cfg)
    && forall j: nat | j < i :: EntryIs(cfg, packed, j, splits[j])
  }

  ghost predicate EntryIs(cfg: Config, packed: seq<Byte>, j: nat, split: Split) {
    && split.dim < 256
    && j * BytesPerIndexEntry(cfg) + BytesPerIndexEntry(cfg) <= |packed|
    && Dim(packed, j, BytesPerIndexEntry(cfg)) == ReaderEntry(cfg, split)
  }

  lemma StoredSplit(cfg: Config, packed: seq<Byte>, splits: seq<Split>, i: nat)
    requires Stored(cfg, packed, splits, i) && i < |splits| && cfg.Valid()
    ensures splits[i].dim < cfg.numIndexDims && splits[i].dim < 256
    ensures |splits[i].value| == cfg.bytesPerDim && splits[i].value != []
  {
  }

  lemma StoredNext(cfg: Config, packed: seq<Byte>, packed': seq<Byte>, splits: seq<Split>, i: nat)
    requires Stored(cfg, packed, splits, i) && i < |splits|
    requires i * BytesPerIndexEntry(cfg) + BytesPerIndexEntry(cfg) <= |packed|
    requires packed' == SetDim(packed, i, BytesPerIndexEntry(cfg), ReaderEntry(cfg, splits[i]))
    ensures Stored(cfg, packed', splits, i + 1)
  {
    var w := BytesPerIndexEntry(cfg);
    forall j: nat | j < i + 1 ensures EntryIs(cfg, packed', j, splits[j]) {
      if j < i {
        assert EntryIs(cfg, packed, j, splits[j]);
      }
      DimOfSetDim(packed, i, |splits|, w, ReaderEntry(cfg, splits[i]), j);
    }
  }

  lemma StoredAll(cfg: Config, packed: seq<Byte>, splits: seq<Split>)
    requires Stored(cfg, packed, splits, |splits|)
    ensures HoldsSplits(cfg, packed, splits)
  {
    forall node: nat | node < |splits| ensures ReaderSplit(cfg, packed, |splits|, node) == splits[node] {
      assert EntryIs(cfg, packed, node, splits[node]);
      ReaderSplitOfEntry(cfg, packed, |splits|, node, splits[node]);
    }
  }

  /** The header lines parsed back. */
  datatype Parsed = Parsed(cfg: Config, count: nat, min: seq<Byte>, max: seq<Byte>, pointCount: int, docCount: int)

  method ReadConfig(input: IndexInput, ghost fp: nat, ghost ix: Index) returns (r: Option<(Config, nat)>)
    modifies input
    ensures r.Some? ==> r.value.0.Valid()
    ensures Reading(input.data, fp, Header(ix), old(input.pos), 0) && ix.cfg.Valid() && ix.Fits64() ==>
              r == Some((ix.cfg, |ix.fps|)) && Reading(input.data, fp, Header(ix), input.pos, 5)
  {
    ghost var lines := Header(ix);
    var numDims := input.ReadInt(NUM_DATA_DIMS, fp, lines, 0, ix.cfg.numDims);
    if numDims.None? || numDims.value < 0 { return None; }
    var numIndexDims := input.ReadInt(NUM_INDEX_DIMS, fp, lines, 1, ix.cfg.numIndexDims);
    if numIndexDims.None? || numIndexDims.value < 0 { return None; }
    var bytesPerDim := input.ReadInt(BYTES_PER_DIM, fp, lines, 2, ix.cfg.bytesPerDim);
    if bytesPerDim.None? || bytesPerDim.value < 0 { return None; }
    var maxPoints := input.ReadInt(MAX_LEAF_POINTS, fp, lines, 3, ix.cfg.maxPointsInLeafNode);
    if maxPoints.None? || maxPoints.value < 0 { return None; }
    var count := input.ReadInt(INDEX_COUNT, fp, lines, 4, |ix.fps|);
    if count.None? || count.value < 0 { return None; }
    var cfg := Config(numDims.value, numIndexDims.value, bytesPerDim.value, maxPoints.value);
    if !cfg.Valid() { return None; }
    return Some((cfg, count.value));
  }

  method ReadHeader(input: IndexInput, ghost ix: Index) returns (r: Option<Parsed>)
    modifies input
    ensures r.Some? ==> r.value.cfg.Valid()
    ensures At(input.data, old(input.pos), Print(Header(ix))) && Readable(ix) ==>
              r == Some(Parsed(ix.cfg, |ix.fps|, ix.min, ix.max, ix.pointCount, ix.docCount))
              && input.pos == old(input.pos) + |Print(Header(ix))|
  {
    ghost var fp, lines := input.pos, Header(ix);
    if At(input.data, fp, Print(lines)) {
      StartReading(input.data, fp, lines);
    }
    var config := ReadConfig(input, fp, ix);
    if config.None? { return None; }
    var (cfg, count) := config.value;
    var min := ReadBytes(input, MIN_VALUE, fp, lines, 5, ix.min);
    if min.None? { return None; }
    var max := ReadBytes(input, MAX_VALUE, fp, lines, 6, ix.max);
    if max.None? { return None; }
    var pointCount := input.ReadInt(POINT_COUNT, fp, lines, 7, ix.pointCount);
    if pointCount.None? { return None; }
    var docCount := input.ReadInt(DOC_COUNT, fp, lines, 8, ix.docCount);
    if docCount.None? { return None; }
    PrintAll(lines);
    return Some(Parsed(cfg, count, min.value, max.value, pointCount.value, docCount.value));
  }

  lemma AtFour(f: string, pos: nat, a: string, b: string, c: string, d: string)
    requires At(f, pos, a + b + c + d)
    ensures At(f, pos, a) && At(f, pos + |a|, b) && At(f, pos + |a| + |b|, c) && At(f, pos + |a| + |b| + |c|, d)
  {
    hide At;
    AtSplit(f, pos, a + b + c, d);
    AtSplit(f, pos, a + b, c);
    AtSplit(f, pos, a, b);
  }

  /** The index can be read back: its numbers fit, its bounds are not empty. */
  ghost predicate Readable(ix: Index) {
    ix.Valid() && ix.Fits64() && ix.min != [] && ix.max != []
  }

  /** initReader: seeks to the index and reads it back. */
  method InitReader(input: IndexInput, fp: nat, ghost ix: Index) returns (r: Option<BKDReader>)
    modifies input
    ensures At(input.data, fp, IndexText(ix)) && Readable(ix) ==> r.Some? && Describes(r.value, ix)
  {
    hide IndexText, TablesAt, Header, Print, Describes;
    ghost var good := At(input.data, fp, IndexText(ix)) && Readable(ix);
    ghost var tables := fp + |Print(Header(ix))|;
    if good {
      IndexParts(input.data, fp, ix);
    }
    input.Seek(fp);
    var header := ReadHeader(input, ix);
    if header.None? { return None; }
    assert good ==> input.pos == tables;
    r := ReadTables(input, header.value, ix, good);
  }

  lemma IndexParts(f: string, fp: nat, ix: Index)
    requires At(f, fp, IndexText(ix))
    ensures At(f, fp, Print(Header(ix)))
    ensures TablesAt(f, fp + |Print(Header(ix))|, ix)
  {
    hide Print, Header, FpLines, CountLines, Flat, SplitTexts, At;
    AtFour(f, fp, Print(Header(ix)), Print(FpLines(ix.fps)), Print(CountLines(|ix.splits|)),
           Flat(SplitTexts(ix.splits)));
  }

  ghost predicate TablesAt(f: string, pos: nat, ix: Index) {
    var a, b := |Print(FpLines(ix.fps))|, |Print(CountLines(|ix.splits|))|;
    && At(f, pos, Print(FpLines(ix.fps)))
    && At(f, pos + a, Print(CountLines(|ix.splits|)))
    && At(f, pos + a + b, Flat(SplitTexts(ix.splits)))
  }

  /** The two tables, and the checks of NewBKDReader. */
  method ReadTables(input: IndexInput, p: Parsed, ghost ix: Index, ghost good: bool) returns (r: Option<BKDReader>)
    requires p.cfg.Valid()
    requires good ==> TablesAt(input.data, input.pos, ix) && Readable(ix)
    requires good ==> p == Parsed(ix.cfg, |ix.fps|, ix.min, ix.max, ix.pointCount, ix.docCount)
    modifies input
    ensures good ==> r.Some? && Describes(r.value, ix)
  {
    hide Print, FpLines, CountLines, Flat, SplitTexts, At, HoldsSplits;
    var fps := ReadBlockFPs(input, p.count, ix.fps);
    if fps.None? { return None; }
    var splitCount := ReadCount(input, |ix.splits|);
    if splitCount.None? || splitCount.value < 0 { return None; }
    var packed := ReadSplits(input, p.cfg, splitCount.value, ix.splits);
    if packed.None? { return None; }
    if |p.min| != p.cfg.PackedIndexBytesLength() || |p.max| != p.cfg.PackedIndexBytesLength() { return None; }
    return Some(BKDReader(p.cfg, fps.value, packed.value, p.min, p.max, p.pointCount, p.docCount));
  }
}
