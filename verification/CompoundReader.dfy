/** Reading a compound file back (codecs/simpletext/compoundformat.go), and the
    renaming of its entries (core/index/segmentinfo.go). */
module CompoundReader {
  import opened Bytes
  import opened Text
  import opened Numerals
  import opened Compound

  // The names of the entries

  /** strings.Index for one character, or -1. */
  function IndexOf(s: string, c: char): int {
    if s == [] then -1
    else if s[0] == c then 0
    else
      var i := IndexOf(s[1..], c);
      if i == -1 then -1 else i + 1
  }

  /** StripSegmentName: the place of a second underscore is looked for behind the
      first character, but cut as if from the first. */
  function StripSegmentName(name: string): string
    requires name != []
  {
    var second := IndexOf(name[1..], '_');
    var i := if second == -1 then IndexOf(name, '.') else second;
    if 0 <= i <= |name| then name[i..] else name
  }

  function Renamed(segment: string, name: string): string
    requires name != []
  {
    segment + StripSegmentName(name)
  }

  lemma {:induction false} IndexBounds(s: string, c: char)
    ensures IndexOf(s, c) == -1 <==> c !in s
    ensures c in s ==> 0 <= IndexOf(s, c) < |s| && s[IndexOf(s, c)] == c && c !in s[..IndexOf(s, c)]
  {
    if s != [] {
      IndexBounds(s[1..], c);
      assert s == [s[0]] + s[1..];
      var i := IndexOf(s, c);
      if i > 0 {
        assert s[..i] == [s[0]] + s[1..][..i - 1];
      }
    }
  }

  lemma {:induction false} IndexBehind(a: string, b: string, c: char)
    requires c !in a
    ensures IndexOf(a + b, c) == if c in b then |a| + IndexOf(b, c) else -1
  {
    IndexBounds(b, c);
    if a == [] {
      assert a + b == b;
    } else {
      assert a == [a[0]] + a[1..];
      assert (a + b)[1..] == a[1..] + b;
      IndexBehind(a[1..], b, c);
    }
  }

  /** Which names survive: those without a second underscore that go on with a dot
      behind the segment's name, and, by accident, those whose second underscore is
      the second character behind it. */
  lemma RenamedIff(segment: string, rest: string)
    requires segment != [] && '_' !in segment[1..] && '.' !in segment
    ensures Renamed(segment, segment + rest) == segment + rest <==>
            IndexOf(rest, '_') == 1 || (IndexOf(rest, '_') == -1 && IndexOf(rest, '.') == 0)
  {
    var name := segment + rest;
    assert name[1..] == segment[1..] + rest;
    IndexBehind(segment[1..], rest, '_');
    IndexBehind(segment, rest, '.');
    IndexBounds(rest, '_');
    IndexBounds(rest, '.');
    var u, d := IndexOf(rest, '_'), IndexOf(rest, '.');
    if u != -1 {
      CutAt(segment, rest, |segment| - 1 + u);
    } else if d != -1 {
      CutAt(segment, rest, |segment| + d);
    } else {
      assert |segment + name| > |name|;
    }
  }

  lemma CutAt(segment: string, rest: string, i: nat)
    requires i <= |segment| + |rest|
    ensures segment + (segment + rest)[i..] == segment + rest <==> i == |segment|
  {
    var cut := segment + (segment + rest)[i..];
    assert |cut| == |segment| + |segment| + |rest| - i;
    if i == |segment| {
      assert (segment + rest)[i..] == rest;
    }
  }

  /** A segment name: no dot, no underscore but in front, and an end that sorts behind
      the dot. Names made of an underscore and digits of base 36 are of this kind. */
  predicate IsSegment(segment: string) {
    && segment != [] && '_' !in segment[1..] && '.' !in segment
    && '.' < segment[|segment| - 1] != '_'
  }

  /** segment.ext */
  predicate Plain(segment: string, name: string) {
    segment < name && name[|segment|] == '.' && '_' !in name[|segment|..]
  }

  /** segment_suffix */
  predicate Suffixed(segment: string, name: string) {
    segment < name && name[|segment|] == '_'
  }

  ghost predicate SegmentFiles(segment: string, names: seq<string>) {
    forall i | 0 <= i < |names| :: Plain(segment, names[i]) || Suffixed(segment, names[i])
  }

  ghost function RenamedAll(segment: string, names: seq<string>): (r: seq<string>)
    requires forall i | 0 <= i < |names| :: names[i] != []
    ensures |r| == |names|
  {
    seq(|names|, i requires 0 <= i < |names| => Renamed(segment, names[i]))
  }

  lemma RenamedPlain(segment: string, name: string)
    requires IsSegment(segment) && Plain(segment, name)
    ensures Renamed(segment, name) == name
  {
    var rest := name[|segment|..];
    assert name == segment + rest;
    IndexBounds(rest, '_');
    RenamedIff(segment, rest);
  }

  lemma IndexAtFirst(s: string, c: char)
    requires s != [] && s[0] == c
    ensures c in s && IndexOf(s, c) == 0
  {
  }

  /** The last character of the segment is doubled. */
  lemma RenamedSuffixed(segment: string, name: string)
    requires IsSegment(segment) && Suffixed(segment, name)
    ensures Renamed(segment, name) == segment + ([segment[|segment| - 1]] + name[|segment|..])
  {
    hide IndexOf;
    var u := |segment| - 1;
    SecondUnderscore(segment, name);
    assert segment == name[..u + 1];
    assert name[u..] == [segment[u]] + name[u + 1..];
  }

  lemma SecondUnderscore(segment: string, name: string)
    requires IsSegment(segment) && Suffixed(segment, name)
    ensures IndexOf(name[1..], '_') == |segment| - 1
  {
    var rest := name[|segment|..];
    IndexAtFirst(rest, '_');
    hide IndexOf;
    assert name[1..] == segment[1..] + rest;
    IndexBehind(segment[1..], rest, '_');
  }

  lemma {:induction false} BeforeBehind(p: string, a: string, b: string)
    ensures Before(p + a, p + b) <==> Before(a, b)
  {
    if p == [] {
      assert p + a == a && p + b == b;
    } else {
      assert (p + a)[1..] == p[1..] + a && (p + b)[1..] == p[1..] + b;
      BeforeBehind(p[1..], a, b);
    }
  }

  /** Renaming keeps the order of two of the names. */
  lemma RenamedInOrder(segment: string, a: string, b: string)
    requires IsSegment(segment) && Before(a, b)
    requires (Plain(segment, a) || Suffixed(segment, a)) && (Plain(segment, b) || Suffixed(segment, b))
    ensures Before(Renamed(segment, a), Renamed(segment, b))
    ensures Suffixed(segment, a) ==> Suffixed(segment, b)
  {
    hide Renamed, Before;
    var z, n := [segment[|segment| - 1]], |segment|;
    assert a == segment + a[n..] && b == segment + b[n..];
    BeforeBehind(segment, a[n..], b[n..]);
    BeforeAtOnce(a[n..], b[n..]);
    BeforeAtOnce(a[n..], z + b[n..]);
    if Plain(segment, a) {
      RenamedPlain(segment, a);
    } else {
      RenamedSuffixed(segment, a);
    }
    if Plain(segment, b) {
      RenamedPlain(segment, b);
    } else {
      RenamedSuffixed(segment, b);
      BeforeBehind(segment, a[n..], z + b[n..]);
      BeforeBehind(segment, z + a[n..], z + b[n..]);
      BeforeBehind(z, a[n..], b[n..]);
    }
  }

  lemma BeforeAtOnce(a: string, b: string)
    ensures a != [] && b != [] && a[0] != b[0] ==> (Before(a, b) <==> a[0] < b[0])
  {
  }

  lemma RenamedSorted(segment: string, names: seq<string>)
    requires IsSegment(segment) && SegmentFiles(segment, names) && Sorted(names)
    ensures (forall i | 0 <= i < |names| :: names[i] != []) && Sorted(RenamedAll(segment, names))
  {
    hide Before, Renamed;
    forall i, j | 0 <= i < j < |names| ensures Before(Renamed(segment, names[i]), Renamed(segment, names[j])) {
      RenamedInOrder(segment, names[i], names[j]);
    }
  }

  /** The renamed entry of a name with a suffix sorts before every such name, or behind
      every one, as the end of the segment does with an underscore. */
  lemma RenamedBeside(segment: string, a: string, b: string)
    requires IsSegment(segment) && Suffixed(segment, b) && (Plain(segment, a) || Suffixed(segment, a))
    ensures Before(Renamed(segment, a), b) <==> Plain(segment, a) || segment[|segment| - 1] < '_'
  {
    hide Renamed, Before;
    var z, n := [segment[|segment| - 1]], |segment|;
    assert a == segment + a[n..] && b == segment + b[n..];
    if Plain(segment, a) {
      RenamedPlain(segment, a);
      BeforeBehind(segment, a[n..], b[n..]);
      BeforeAtOnce(a[n..], b[n..]);
    } else {
      RenamedSuffixed(segment, a);
      BeforeBehind(segment, z + a[n..], b[n..]);
      BeforeAtOnce(z + a[n..], b[n..]);
    }
  }

  /** Where the reader looks for a name: a plain name where it stands, a name with a suffix
      at the first such name, or behind the table. */
  lemma LookedFor(segment: string, names: seq<string>, i: nat)
    requires IsSegment(segment) && SegmentFiles(segment, names) && Sorted(names) && i < |names|
    ensures forall k | 0 <= k < |names| :: names[k] != []
    ensures var found := FirstNotBefore(RenamedAll(segment, names), names[i]);
            && (Plain(segment, names[i]) ==> found == i)
            && (Suffixed(segment, names[i]) && segment[|segment| - 1] < '_' ==> found == |names|)
            && (Suffixed(segment, names[i]) && '_' < segment[|segment| - 1] ==>
                  && found <= i && Suffixed(segment, names[found])
                  && forall k | 0 <= k < found :: Plain(segment, names[k]))
  {
    hide Before, Renamed;
    RenamedSorted(segment, names);
    var table := RenamedAll(segment, names);
    if Plain(segment, names[i]) {
      RenamedPlain(segment, names[i]);
      SearchFinds(table, i);
    } else {
      forall k | 0 <= k < |names|
        ensures Before(table[k], names[i]) <==> Plain(segment, names[k]) || segment[|segment| - 1] < '_'
      {
        RenamedBeside(segment, names[k], names[i]);
      }
    }
  }

  /** So every plain name is found, and a name with a suffix exactly when the segment ends
      behind the underscore and no other name with a suffix comes first. */
  lemma FoundIff(segment: string, names: seq<string>, i: nat)
    requires IsSegment(segment) && SegmentFiles(segment, names) && Sorted(names) && i < |names|
    ensures forall k | 0 <= k < |names| :: names[k] != []
    ensures FirstNotBefore(RenamedAll(segment, names), names[i]) == i <==>
            Plain(segment, names[i])
            || ('_' < segment[|segment| - 1] && forall k | 0 <= k < i :: Plain(segment, names[k]))
  {
    hide FirstNotBefore, Renamed;
    LookedFor(segment, names, i);
  }

  /** In segment `_0` a name with a suffix is lost, in segment `_a` the second one is
      taken for the first. */
  lemma SuffixesAreLost()
    ensures FirstNotBefore(RenamedAll("_0", ["_0_x.doc"]), "_0_x.doc") == 1
    ensures FirstNotBefore(RenamedAll("_a", ["_a_x.doc", "_a_y.doc"]), "_a_y.doc") == 0
  {
    hide FirstNotBefore, Before;
    LookedFor("_0", ["_0_x.doc"], 0);
    var names := ["_a_x.doc", "_a_y.doc"];
    TwoSuffixes();
    LookedFor("_a", names, 1);
    assert !Plain("_a", names[0]);
  }

  lemma TwoSuffixes()
    ensures Sorted(["_a_x.doc", "_a_y.doc"]) && SegmentFiles("_a", ["_a_x.doc", "_a_y.doc"])
    ensures !Plain("_a", "_a_x.doc")
  {
    hide Before;
    var names := ["_a_x.doc", "_a_y.doc"];
    BeforeBehind("_a_", "x.doc", "y.doc");
    BeforeAtOnce("x.doc", "y.doc");
    assert "_a_" + "x.doc" == names[0] && "_a_" + "y.doc" == names[1];
  }

  // Reading the table of contents

  lemma {:induction false} PlainEscape(s: string)
    requires NEWLINE !in s && ESCAPE !in s
    ensures Escape(s) == s
  {
    if s != [] {
      PlainEscape(s[1..]);
      assert s == [s[0]] + s[1..];
    }
  }

  lemma {:induction false} DigitsArePlain(n: nat)
    ensures NEWLINE !in Digits(n, 10) && ESCAPE !in Digits(n, 10)
    decreases n
  {
    if n >= 10 {
      DigitsArePlain(n / 10);
    }
  }

  /** The footer line has a known length, whatever the position it tells. */
  lemma FooterSize(tocPos: nat)
    requires Fits(tocPos, 64)
    ensures |Line(FooterLine(tocPos))| == |TABLE_POS| + OFFSET_WIDTH + 1
  {
    hide Digits;
    PaddedWidth(tocPos);
    DigitsArePlain(tocPos);
    var padded := Padded(tocPos, OFFSET_WIDTH);
    assert NEWLINE !in padded && ESCAPE !in padded;
    PlainEscape(FooterLine(tocPos));
  }

  ghost predicate Named(names: seq<string>) {
    forall i | 0 <= i < |names| :: names[i] != []
  }

  /** The reader's view of a compound file. */
  class CompoundDirectory {
    const data: string
    var fileNames: seq<string>
    var startOffsets: seq<int>
    var endOffsets: seq<int>

    constructor (data: string)
      ensures this.data == data && fileNames == [] && startOffsets == [] && endOffsets == []
    {
      this.data := data;
      fileNames, startOffsets, endOffsets := [], [], [];
    }

    /** The table describes the files under the names the reader gives them. */
    ghost predicate Describes(segment: string, names: seq<string>, t: Toc)
      reads this
    {
      && t.Valid() && Named(names)
      && |fileNames| == |startOffsets| == |endOffsets| == |names| == |t.names|
      && forall i | 0 <= i < |names| ::
           fileNames[i] == Renamed(segment, names[i]) && startOffsets[i] == t.starts[i] && endOffsets[i] == t.ends[i]
    }

    /** getIndex: a binary search. */
    method GetIndex(name: string) returns (i: nat)
      ensures i == Search(fileNames, name, 0, |fileNames|)
    {
      i := 0;
      var j := |fileNames|;
      while i < j
        invariant 0 <= i <= j <= |fileNames|
        invariant Search(fileNames, name, i, j) == Search(fileNames, name, 0, |fileNames|)
      {
        var h := (i + j) / 2;
        if Before(fileNames[h], name) {
          i := h + 1;
        } else {
          j := h;
        }
      }
    }

    /** OpenInput: a slice of the file; an index behind the table is an error. */
    method OpenInput(name: string) returns (slice: Option<string>)
      requires |fileNames| == |startOffsets| == |endOffsets|
      ensures var i := Search(fileNames, name, 0, |fileNames|);
              && (slice.Some? <==> i < |fileNames| && 0 <= startOffsets[i] <= endOffsets[i] <= |data|)
              && (slice.Some? ==> slice.value == data[startOffsets[i]..endOffsets[i]])
    {
      var i := GetIndex(name);
      if i >= |fileNames| || !(0 <= startOffsets[i] <= endOffsets[i] <= |data|) {
        return None;
      }
      return Some(data[startOffsets[i]..endOffsets[i]]);
    }

    method FileLength(name: string) returns (length: Option<int>)
      requires |fileNames| == |startOffsets| == |endOffsets|
      ensures var i := Search(fileNames, name, 0, |fileNames|);
              length == if i < |fileNames| then Some(endOffsets[i] - startOffsets[i]) else None
    {
      var i := GetIndex(name);
      if i >= |fileNames| {
        return None;
      }
      return Some(endOffsets[i] - startOffsets[i]);
    }

    /** The table of contents, entry by entry. */
    method ReadToc(input: IndexInput, segment: string, numEntries: int, ghost lines: seq<string>, ghost start: nat,
                   ghost t: Toc, ghost good: bool) returns (ok: bool)
      requires fileNames == [] && startOffsets == [] && endOffsets == []
      requires good ==> t.Valid() && lines == TocLines(t) && numEntries == |t.names| && TocFits(t)
      requires good ==> Reading(input.data, start, lines, input.pos, 1)
      modifies this, input
      ensures |fileNames| == |startOffsets| == |endOffsets|
      ensures good ==> ok && Describes(segment, t.names, t)
    {
      hide Print, Reading, At, TocLines, StripSegmentName;
      var i := 0;
      while i < numEntries
        invariant 0 <= i && (i <= numEntries || numEntries < 0)
        invariant |fileNames| == |startOffsets| == |endOffsets| == i
        invariant good ==> i <= |t.names| && Reading(input.data, start, lines, input.pos, 1 + 3 * i)
        invariant good ==> forall k | 0 <= k < i ::
                    && t.names[k] != [] && fileNames[k] == Renamed(segment, t.names[k])
                    && startOffsets[k] == t.starts[k] && endOffsets[k] == t.ends[k]
      {
        if good {
          ReadEntryIs(t, i);
        }
        var name := input.ReadLabel(TABLE_NAME, start, lines, 1 + 3 * i);
        if name.None? || name.value == [] {
          return false;
        }
        var from := input.ReadInt(TABLE_START, start, lines, 2 + 3 * i, if good then t.starts[i] else 0);
        if from.None? {
          return false;
        }
        var to := input.ReadInt(TABLE_END, start, lines, 3 + 3 * i, if good then t.ends[i] else 0);
        if to.None? {
          return false;
        }
        fileNames := fileNames + [Renamed(segment, name.value)];
        startOffsets := startOffsets + [from.value];
        endOffsets := endOffsets + [to.value];
        i := i + 1;
      }
      return true;
    }
  }

  /** Names are there, and positions can be parsed. */
  ghost predicate TocFits(t: Toc)
    requires t.Valid()
  {
    && Named(t.names)
    && forall i | 0 <= i < |t.names| :: Fits(t.starts[i], 64) && Fits(t.ends[i], 64)
  }

  lemma ReadEntryIs(t: Toc, i: nat)
    requires t.Valid() && TocFits(t) && i < |t.names|
    ensures t.names[i] != [] && Fits(t.starts[i], 64) && Fits(t.ends[i], 64)
    ensures HasPrefix(TocLines(t)[1 + 3 * i], TABLE_NAME) && TocLines(t)[1 + 3 * i][|TABLE_NAME|..] == t.names[i]
    ensures TocLines(t)[2 + 3 * i] == TABLE_START + Itoa(t.starts[i])
    ensures TocLines(t)[3 + 3 * i] == TABLE_END + Itoa(t.ends[i])
  {
    hide TocLine;
    TocEntry(t, i);
    OwnLabel(TABLE_NAME, t.names[i]);
  }

  function FirstNotBefore(names: seq<string>, name: string): (i: nat)
    ensures i <= |names|
    ensures forall k | 0 <= k < i :: Before(names[k], name)
    ensures i < |names| ==> !Before(names[i], name)
  {
    if names == [] || !Before(names[0], name) then 0
    else
      var i := FirstNotBefore(names[1..], name);
      assert forall k | 0 < k < i + 1 :: names[k] == names[1..][k - 1];
      i + 1
  }

  /** sort.SearchStrings, between i and j. */
  function Search(names: seq<string>, name: string, i: nat, j: nat): (r: nat)
    requires i <= j <= |names|
    ensures i <= r <= j
    decreases j - i
  {
    if i == j then i
    else
      var h := (i + j) / 2;
      if Before(names[h], name) then Search(names, name, h + 1, j) else Search(names, name, i, h)
  }

  /** In a sorted list it finds the first name that is not before the one looked for. */
  lemma {:induction false} SearchIsFirst(names: seq<string>, name: string, i: nat, j: nat)
    requires Sorted(names) && i <= FirstNotBefore(names, name) <= j <= |names|
    ensures Search(names, name, i, j) == FirstNotBefore(names, name)
    decreases j - i
  {
    hide Before;
    if i < j {
      var h, first := (i + j) / 2, FirstNotBefore(names, name);
      if Before(names[h], name) {
        if first < h {
          BeforeIsTransitive(names[first], names[h], name);
        }
        SearchIsFirst(names, name, h + 1, j);
      } else {
        SearchIsFirst(names, name, i, h);
      }
    }
  }

  /** In a sorted list the search finds a name where it stands. */
  lemma SearchFinds(names: seq<string>, i: nat)
    requires Sorted(names) && i < |names|
    ensures FirstNotBefore(names, names[i]) == i
  {
    hide Before;
    BeforeIsStrict(names[i]);
  }

  /** GetCompoundReader: the footer tells where the table starts, the table the rest. */
  method GetCompoundReader(data: string, segment: string, ghost names: seq<string>, ghost files: Files, ghost t: Toc,
                           ghost good: bool) returns (dir: CompoundDirectory, ok: bool)
    requires good ==> IsCompound(data, names, files, t) && Fits(|data|, 64) && Named(names)
    ensures fresh(dir) && dir.data == data && |dir.fileNames| == |dir.startOffsets| == |dir.endOffsets|
    ensures good ==> ok && dir.Describes(segment, names, t)
  {
    hide Print, Reading, At, TocLines, Line, Flat, FooterLine;
    dir := new CompoundDirectory(data);
    var input := new IndexInput(data);
    ghost var tocPos := if good then |Flat(Parts(names, files))| else 0;
    if good {
      PartsOfCompound(data, names, files, t);
    }
    var pos := |data| - |TABLE_POS| - OFFSET_WIDTH - 1;
    if pos < 0 {
      return dir, false;
    }
    input.Seek(pos);
    var tablePos := ReadFooter(input, tocPos, good);
    if tablePos.None? || tablePos.value < 0 {
      return dir, false;
    }
    input.Seek(tablePos.value);
    ghost var lines := if good then TocLines(t) else [];
    if good {
      StartReading(data, tocPos, lines);
      FirstTocLine(t);
    }
    var numEntries := input.ReadInt(TABLE, tocPos, lines, 0, if good then |t.names| else 0);
    if numEntries.None? {
      return dir, false;
    }
    ok := dir.ReadToc(input, segment, numEntries.value, lines, tocPos, t, good);
  }

  method ReadFooter(input: IndexInput, ghost tocPos: nat, ghost good: bool) returns (tablePos: Option<int>)
    requires good ==> At(input.data, input.pos, Print([FooterLine(tocPos)])) && Fits(tocPos, 64)
    modifies input
    ensures good ==> tablePos == Some(tocPos)
  {
    ghost var start, lines := input.pos, [FooterLine(tocPos)];
    if good {
      StartReading(input.data, start, lines);
      OwnLabel(TABLE_POS, Padded(tocPos, OFFSET_WIDTH));
      PaddedRoundTrip(tocPos, OFFSET_WIDTH);
    }
    var value := input.ReadLabel(TABLE_POS, start, lines, 0);
    if value.None? {
      return None;
    }
    return Atoi(value.value);
  }

  /** The three parts of the file, where the reader looks for them. */
  lemma PartsOfCompound(data: string, names: seq<string>, files: Files, t: Toc)
    requires IsCompound(data, names, files, t) && Fits(|data|, 64) && Named(names)
    ensures var tocPos := |Flat(Parts(names, files))|;
            && Fits(tocPos, 64) && |data| >= |TABLE_POS| + OFFSET_WIDTH + 1
            && At(data, |data| - |TABLE_POS| - OFFSET_WIDTH - 1, Print([FooterLine(tocPos)]))
            && At(data, tocPos, Print(TocLines(t)))
    ensures t.Valid() && t.names == names && TocFits(t) && Fits(|names|, 64)
  {
    hide Print, TocLines, Line, Flat, FooterLine;
    var body, toc := Flat(Parts(names, files)), Print(TocLines(t));
    var tocPos := |body|;
    FooterSize(tocPos);
    PrintOne(FooterLine(tocPos));
    assert At(data, 0, data);
    AtSplit(data, 0, body + toc, Line(FooterLine(tocPos)));
    AtSplit(data, 0, body, toc);
    forall i | 0 <= i < |t.names| ensures Fits(t.starts[i], 64) && Fits(t.ends[i], 64) {
      SliceIsFile(data, names, files, t, i);
    }
    NamesAreFewer(names, files);
  }

  /** Every file takes at least one character. */
  lemma {:induction false} PartsAreLonger(parts: seq<string>)
    requires forall p <- parts :: |p| >= 1
    ensures |parts| <= |Flat(parts)|
  {
    if parts != [] {
      var n := |parts| - 1;
      assert parts[n] in parts;
      PartsAreLonger(parts[..n]);
    }
  }

  lemma NamesAreFewer(names: seq<string>, files: Files)
    requires Listed(names, files)
    ensures |names| <= |Flat(Parts(names, files))|
  {
    hide Flat;
    forall p <- Parts(names, files) ensures |p| >= 1 {
    }
    PartsAreLonger(Parts(names, files));
  }

  /** Write, then open any of the files. When the renaming leaves all names alone, its own
      bytes come back. For the files of a segment: a plain name gives its own bytes; a name
      with a suffix those of the first such file, if the segment ends behind the underscore,
      and nothing otherwise. */
  method WriteAndOpen(files: Files, segment: string, name: string, out: IndexOutput)
    returns (slice: Option<string>, length: Option<int>, ghost names: seq<string>)
    requires out.data == [] && name in files && forall n <- files :: n != []
    modifies out
    ensures Sorted(names) && forall n :: n in names <==> n in files
    ensures |out.data| < 0x8000_0000_0000_0000 && (forall n <- files :: Renamed(segment, n) == n) ==>
              slice == Some(files[name]) && length == Some(|files[name]|)
    ensures |out.data| < 0x8000_0000_0000_0000 && IsSegment(segment) && SegmentFiles(segment, names) ==>
              Opened(segment, names, files, name, slice, length)
  {
    hide Flat, Print, TocLines, Line, Sorted, Before, StripSegmentName, Search, FirstNotBefore, Opened, SegmentFiles;
    ghost var t;
    names, t := Write(out, files);
    if |out.data| >= 0x8000_0000_0000_0000 {
      return None, None, names;
    }
    Powers.LargePowers();
    forall i | 0 <= i < |names| ensures names[i] != [] {
      assert names[i] in names;
    }
    slice, length := OpenWritten(out.data, segment, name, names, files, t);
    ghost var table := RenamedAll(segment, names);
    assert name in names;
    ghost var i: nat :| i < |names| && names[i] == name;
    if forall n <- files :: Renamed(segment, n) == n {
      assert table == names by {
        forall k | 0 <= k < |names| ensures table[k] == names[k] {
          assert names[k] in names;
        }
      }
      SearchFinds(names, i);
      SearchIsFirst(names, name, 0, |names|);
    }
    if IsSegment(segment) && SegmentFiles(segment, names) {
      OpenedIs(segment, names, files, i, slice, length);
    }
  }

  /** Opening a file of a compound file, and asking for its length. */
  method OpenWritten(data: string, segment: string, name: string, ghost names: seq<string>, ghost files: Files,
                     ghost t: Toc) returns (slice: Option<string>, length: Option<int>)
    requires IsCompound(data, names, files, t) && Fits(|data|, 64) && forall i | 0 <= i < |names| :: names[i] != []
    ensures var table := RenamedAll(segment, names);
            Result(names, files, Search(table, name, 0, |table|), slice, length)
  {
    hide Flat, Print, TocLines, Line, Sorted, Before, StripSegmentName, Search;
    var dir, ok := GetCompoundReader(data, segment, names, files, t, true);
    ghost var table := RenamedAll(segment, names);
    assert dir.fileNames == table;
    slice := dir.OpenInput(name);
    length := dir.FileLength(name);
    ghost var found := Search(table, name, 0, |table|);
    if found < |names| {
      SliceIsFile(data, names, files, t, found);
      assert names[found] in names;
    }
  }

  /** What the reader hands out for the entry found. */
  ghost predicate Result(names: seq<string>, files: Files, found: nat, slice: Option<string>, length: Option<int>) {
    if found < |names| then
      names[found] in files && slice == Some(files[names[found]]) && length == Some(|files[names[found]]|)
    else
      slice == None && length == None
  }

  ghost predicate Opened(segment: string, names: seq<string>, files: Files, name: string,
                         slice: Option<string>, length: Option<int>)
    requires segment != []
  {
    if Plain(segment, name) then
      name in files && slice == Some(files[name]) && length == Some(|files[name]|)
    else if segment[|segment| - 1] < '_' then
      slice == None && length == None
    else
      exists first: nat ::
        && first < |names| && Suffixed(segment, names[first]) && (forall k | 0 <= k < first :: Plain(segment, names[k]))
        && names[first] in files && slice == Some(files[names[first]]) && length == Some(|files[names[first]]|)
  }

  lemma OpenedIs(segment: string, names: seq<string>, files: Files, i: nat, slice: Option<string>, length: Option<int>)
    requires IsSegment(segment) && SegmentFiles(segment, names) && Sorted(names) && i < |names|
    requires forall k | 0 <= k < |names| :: names[k] != []
    requires var table := RenamedAll(segment, names);
             Result(names, files, Search(table, names[i], 0, |table|), slice, length)
    ensures Opened(segment, names, files, names[i], slice, length)
  {
    hide Before, Renamed, Search, FirstNotBefore, Plain, Suffixed, Sorted;
    RenamedSorted(segment, names);
    LookedFor(segment, names, i);
    var table := RenamedAll(segment, names);
    SearchIsFirst(table, names[i], 0, |table|);
    assert Plain(segment, names[i]) || Suffixed(segment, names[i]);
    assert '_' < segment[|segment| - 1] && !Plain(segment, names[i]) ==>
        Suffixed(segment, names[FirstNotBefore(table, names[i])]);
  }
}
