/** The plain text compound file (codecs/simpletext/compoundformat.go): its layout
    and its writer. */
module Compound {
  import opened Bytes
  import opened Text
  import opened Numerals

  const HEADER := "cfs entry for: "
  const TABLE := "table of contents, size: "
  const TABLE_NAME := "  filename: "
  const TABLE_START := "    start: "
  const TABLE_END := "    end: "
  const TABLE_POS := "table of contents begins at offset: "
  const OFFSET_WIDTH := 19

  // The order of names

  predicate Before(a: string, b: string) {
    if b == [] then false
    else if a == [] then true
    else a[0] < b[0] || (a[0] == b[0] && Before(a[1..], b[1..]))
  }

  lemma {:induction false} BeforeIsStrict(a: string)
    ensures !Before(a, a)
  {
    if a != [] {
      BeforeIsStrict(a[1..]);
    }
  }

  lemma {:induction false} BeforeIsTotal(a: string, b: string)
    ensures Before(a, b) || a == b || Before(b, a)
  {
    if a != [] && b != [] && a[0] == b[0] {
      BeforeIsTotal(a[1..], b[1..]);
      assert a == [a[0]] + a[1..] && b == [b[0]] + b[1..];
    }
  }

  lemma {:induction false} BeforeIsTransitive(a: string, b: string, c: string)
    requires Before(a, b) && Before(b, c)
    ensures Before(a, c)
  {
    if a != [] && a[0] == b[0] == c[0] {
      BeforeIsTransitive(a[1..], b[1..], c[1..]);
    }
  }

  ghost predicate Sorted(names: seq<string>) {
    forall i, j | 0 <= i < j < |names| :: Before(names[i], names[j])
  }

  /** slices.Sort on the names of a set of files. */
  method SortNames(files: set<string>) returns (names: seq<string>)
    ensures Sorted(names) && forall name :: name in names <==> name in files
  {
    names := [];
    var rest := files;
    while rest != {}
      invariant rest <= files && Sorted(names) && forall name :: name in names <==> name in files - rest
      decreases |rest|
    {
      var name :| name in rest;
      names := Insert(names, name);
      rest := rest - {name};
    }
  }

  method Insert(names: seq<string>, name: string) returns (r: seq<string>)
    requires Sorted(names) && name !in names
    ensures Sorted(r) && forall x :: x in r <==> x in names || x == name
  {
    hide Before;
    var i := 0;
    while i < |names| && Before(names[i], name)
      invariant 0 <= i <= |names| && forall k | 0 <= k < i :: Before(names[k], name)
    {
      i := i + 1;
    }
    if i < |names| {
      BeforeIsTotal(names[i], name);
      assert names[i] in names && Before(name, names[i]);
      forall k | i < k < |names| ensures Before(name, names[k]) {
        BeforeIsTransitive(name, names[i], names[k]);
      }
    }
    r := names[..i] + [name] + names[i..];
    assert names == names[..i] + names[i..];
  }

  // The layout

  type Files = map<string, string>

  ghost predicate Listed(names: seq<string>, files: Files) {
    forall name <- names :: name in files
  }

  /** One file: a line with its name, then its bytes as they are. */
  function Part(name: string, files: Files): string
    requires name in files
  {
    Line(HEADER + name) + files[name]
  }

  ghost function Parts(names: seq<string>, files: Files): (parts: seq<string>)
    requires Listed(names, files)
    ensures |parts| == |names|
  {
    seq(|names|, i requires 0 <= i < |names| => Part(names[i], files))
  }

  /** Where the bytes of the i-th file start. */
  ghost function Start(names: seq<string>, files: Files, i: nat): nat
    requires Listed(names, files) && i < |names|
  {
    |Flat(Parts(names, files)[..i])| + |Line(HEADER + names[i])|
  }

  ghost function End(names: seq<string>, files: Files, i: nat): nat
    requires Listed(names, files) && i < |names|
  {
    Start(names, files, i) + |files[names[i]]|
  }

  /** The table of contents: its size, then name, start and end of every file. */
  datatype Toc = Toc(names: seq<string>, starts: seq<nat>, ends: seq<nat>) {
    predicate Valid() {
      |starts| == |ends| == |names|
    }
  }

  function TocLine(t: Toc, k: nat): string
    requires t.Valid() && k < 1 + 3 * |t.names|
  {
    if k == 0 then TABLE + Itoa(|t.names|)
    else
      var i := (k - 1) / 3;
      if (k - 1) % 3 == 0 then TABLE_NAME + t.names[i]
      else if (k - 1) % 3 == 1 then TABLE_START + Itoa(t.starts[i])
      else TABLE_END + Itoa(t.ends[i])
  }

  function TocLines(t: Toc): (lines: seq<string>)
    requires t.Valid()
    ensures |lines| == 1 + 3 * |t.names|
  {
    seq(1 + 3 * |t.names|, k requires 0 <= k < 1 + 3 * |t.names| => TocLine(t, k))
  }

  function FooterLine(tocPos: nat): string {
    TABLE_POS + Padded(tocPos, OFFSET_WIDTH)
  }

  ghost predicate TocOf(t: Toc, names: seq<string>, files: Files)
    requires Listed(names, files)
  {
    && t.Valid() && t.names == names
    && forall i: nat | i < |names| :: t.starts[i] == Start(names, files, i) && t.ends[i] == End(names, files, i)
  }

  /** The whole file. */
  ghost predicate IsCompound(data: string, names: seq<string>, files: Files, t: Toc) {
    && Listed(names, files) && TocOf(t, names, files)
    && data == Flat(Parts(names, files)) + Print(TocLines(t)) + Line(FooterLine(|Flat(Parts(names, files))|))
  }

  // The writer

  method WriteFiles(out: IndexOutput, names: seq<string>, files: Files) returns (starts: seq<nat>, ends: seq<nat>)
    requires Listed(names, files) && out.data == []
    modifies out
    ensures out.data == Flat(Parts(names, files))
    ensures TocOf(Toc(names, starts, ends), names, files)
  {
    hide Line, Flat;
    ghost var parts := Parts(names, files);
    starts, ends := [], [];
    NothingFlat();
    var i := 0;
    while i < |names|
      invariant 0 <= i <= |names| == |parts| && |starts| == |ends| == i && out.data == Flat(parts[..i])
      invariant forall k: nat | k < i :: starts[k] == Start(names, files, k) && ends[k] == End(names, files, k)
    {
      var name := names[i];
      assert name in names;
      out.WriteLabel(HEADER, name);
      starts := starts + [out.GetFilePointer()];
      out.CopyBytes(files[name]);
      ends := ends + [out.GetFilePointer()];
      FlatNext(parts, i);
      Associate(Flat(parts[..i]), Line(HEADER + name), files[name]);
      i := i + 1;
    }
    FlatAll(parts);
  }

  lemma NothingFlat()
    ensures Flat<char>([]) == []
  {
  }

  method WriteToc(out: IndexOutput, t: Toc)
    requires t.Valid()
    modifies out
    ensures out.data == old(out.data) + Print(TocLines(t))
  {
    hide Print, TocLines, Itoa;
    ghost var start, lines := out.data, TocLines(t);
    FirstTocLine(t);
    NothingPrinted(start, lines);
    out.PutLine(TABLE, Itoa(|t.names|), start, lines, 0);
    var i := 0;
    while i < |t.names|
      invariant 0 <= i <= |t.names| && out.data == start + Print(lines[..1 + 3 * i])
    {
      TocEntry(t, i);
      WriteTocEntry(out, t, i, start, lines, 1 + 3 * i);
      i := i + 1;
    }
    PrintAll(lines);
  }

  lemma FirstTocLine(t: Toc)
    requires t.Valid()
    ensures TocLines(t)[0] == TABLE + Itoa(|t.names|)
  {
  }

  lemma NothingPrinted(start: string, lines: seq<string>)
    ensures start + Print(lines[..0]) == start
  {
  }

  method WriteTocEntry(out: IndexOutput, t: Toc, i: nat, ghost start: string, ghost lines: seq<string>, ghost k: nat)
    requires t.Valid() && i < |t.names| && k + 2 < |lines| && out.data == start + Print(lines[..k])
    requires lines[k] == TABLE_NAME + t.names[i] && lines[k + 1] == TABLE_START + Itoa(t.starts[i])
    requires lines[k + 2] == TABLE_END + Itoa(t.ends[i])
    modifies out
    ensures out.data == start + Print(lines[..k + 3])
  {
    hide Print, Itoa;
    out.PutLine(TABLE_NAME, t.names[i], start, lines, k);
    out.PutLine(TABLE_START, Itoa(t.starts[i]), start, lines, k + 1);
    out.PutLine(TABLE_END, Itoa(t.ends[i]), start, lines, k + 2);
  }

  lemma TocEntry(t: Toc, i: nat)
    requires t.Valid() && i < |t.names|
    ensures TocLines(t)[1 + 3 * i] == TABLE_NAME + t.names[i]
    ensures TocLines(t)[2 + 3 * i] == TABLE_START + Itoa(t.starts[i])
    ensures TocLines(t)[3 + 3 * i] == TABLE_END + Itoa(t.ends[i])
  {
    hide Itoa;
    Thirds(i);
    assert TocLine(t, 1 + 3 * i) == TABLE_NAME + t.names[i];
    assert TocLine(t, 2 + 3 * i) == TABLE_START + Itoa(t.starts[i]);
    assert TocLine(t, 3 + 3 * i) == TABLE_END + Itoa(t.ends[i]);
  }

  lemma Thirds(i: nat)
    ensures (3 * i) / 3 == (3 * i + 1) / 3 == (3 * i + 2) / 3 == i
    ensures (3 * i) % 3 == 0 && (3 * i + 1) % 3 == 1 && (3 * i + 2) % 3 == 2
  {
  }

  /** Write: the files in the order of their names, the table, and where it starts. */
  method Write(out: IndexOutput, files: Files) returns (ghost names: seq<string>, ghost t: Toc)
    requires out.data == []
    modifies out
    ensures Sorted(names) && (forall name :: name in names <==> name in files) && IsCompound(out.data, names, files, t)
  {
    hide Print, Flat, Line, Sorted, Parts, TocOf;
    var list := SortNames(files.Keys);
    names := list;
    var starts, ends := WriteFiles(out, list, files);
    var toc := Toc(list, starts, ends);
    TocIsValid(toc, list, files);
    t := toc;
    var tocPos := out.GetFilePointer();
    WriteToc(out, toc);
    out.WriteLabel(TABLE_POS, Padded(tocPos, OFFSET_WIDTH));
  }

  lemma TocIsValid(t: Toc, names: seq<string>, files: Files)
    requires Listed(names, files) && TocOf(t, names, files)
    ensures t.Valid()
  {
  }

  // What the layout promises

  /** The bytes of a file stand between its start and its end. */
  lemma SliceIsFile(data: string, names: seq<string>, files: Files, t: Toc, i: nat)
    requires IsCompound(data, names, files, t) && i < |names|
    ensures t.starts[i] <= t.ends[i] <= |data| && data[t.starts[i]..t.ends[i]] == files[names[i]]
  {
    hide Print, Flat, Line, TocLines;
    var parts := Parts(names, files);
    assert At(data, 0, Flat(parts));
    AtFlat(data, 0, parts, i);
    AtSplit(data, |Flat(parts[..i])|, Line(HEADER + names[i]), files[names[i]]);
  }

  /** Before every file stands a line with its name, where the file before it ends; behind the
      last file stands the table. */
  lemma NameIsBefore(data: string, names: seq<string>, files: Files, t: Toc, i: nat)
    requires IsCompound(data, names, files, t) && i < |names|
    ensures LineAt(data, if i == 0 then 0 else t.ends[i - 1]) == Some((HEADER + names[i], t.starts[i]))
    ensures i == |names| - 1 ==> t.ends[i] == |Flat(Parts(names, files))|
  {
    hide Flat, Print, TocLines, Line, FooterLine;
    var parts := Parts(names, files);
    var body := Flat(parts);
    assert data == body + (Print(TocLines(t)) + Line(FooterLine(|body|)));
    AtWhole(data, body, Print(TocLines(t)) + Line(FooterLine(|body|)));
    AtFlat(data, 0, parts, i);
    AtSplit(data, |Flat(parts[..i])|, Line(HEADER + names[i]), files[names[i]]);
    LineRoundTrip(data, |Flat(parts[..i])|, HEADER + names[i]);
    NothingFlat();
    assert parts[..0] == [] && parts[..|parts|] == parts;
    FlatNext(parts, i);
    if i > 0 {
      FlatNext(parts, i - 1);
    }
  }

  lemma AtWhole(data: string, a: string, b: string)
    requires data == a + b
    ensures At(data, 0, a)
  {
    AtSplit(data, 0, a, b);
  }

  /** No two slices overlap. */
  lemma SlicesAreDisjoint(data: string, names: seq<string>, files: Files, t: Toc, i: nat, j: nat)
    requires IsCompound(data, names, files, t) && i < j < |names|
    ensures t.ends[i] <= t.starts[j]
  {
    hide Print, Line, TocLines;
    FlatNext(Parts(names, files), i);
    FlatGrows(Parts(names, files), i + 1, j);
  }

  lemma {:induction false} FlatGrows(parts: seq<string>, i: nat, j: nat)
    requires i <= j <= |parts|
    ensures |Flat(parts[..i])| <= |Flat(parts[..j])|
    decreases j
  {
    if i < j {
      FlatGrows(parts, i, j - 1);
      FlatNext(parts, j - 1);
    }
  }
}
