/** What the lines of a stored fields file say (codecs/simpletext/storedfieldswriter.go),
    whoever reads them: a label opens a document or a field, or completes the field that was
    opened last. */
module StoredFieldsMeaning {
  import opened Text
  import opened Numerals
  import opened StoredFields
  import opened StoredFieldsReader

  datatype FieldRead = FieldRead(number: int, name: string, typeName: string, text: string)

  datatype DocumentRead = DocumentRead(number: int, fields: seq<FieldRead>)

  // Line by line

  function NumberIn(text: string): int {
    match Atoi(text)
    case Some(n) => n
    case None => 0
  }

  function OnField(f: FieldRead, line: string): FieldRead {
    if HasPrefix(line, STORED_FIELD_NAME) then f.(name := line[|STORED_FIELD_NAME|..])
    else if HasPrefix(line, STORED_FIELD_TYPE) then f.(typeName := line[|STORED_FIELD_TYPE|..])
    else if HasPrefix(line, STORED_FIELD_VALUE) then f.(text := line[|STORED_FIELD_VALUE|..])
    else f
  }

  function OnFields(fs: seq<FieldRead>, line: string): seq<FieldRead> {
    if HasPrefix(line, STORED_FIELD_FIELD) then fs + [FieldRead(NumberIn(line[|STORED_FIELD_FIELD|..]), "", "", "")]
    else if fs == [] then fs
    else fs[..|fs| - 1] + [OnField(fs[|fs| - 1], line)]
  }

  function OnDocuments(ds: seq<DocumentRead>, line: string): seq<DocumentRead> {
    if HasPrefix(line, STORED_FIELD_DOC) then ds + [DocumentRead(NumberIn(line[|STORED_FIELD_DOC|..]), [])]
    else if ds == [] then ds
    else
      var d := ds[|ds| - 1];
      ds[..|ds| - 1] + [d.(fields := OnFields(d.fields, line))]
  }

  function ReadFields(fs: seq<FieldRead>, lines: seq<string>): seq<FieldRead> {
    if lines == [] then fs else OnFields(ReadFields(fs, lines[..|lines| - 1]), lines[|lines| - 1])
  }

  function ReadDocuments(ds: seq<DocumentRead>, lines: seq<string>): seq<DocumentRead> {
    if lines == [] then ds else OnDocuments(ReadDocuments(ds, lines[..|lines| - 1]), lines[|lines| - 1])
  }

  // What was stored

  function Stored(f: Field): FieldRead {
    FieldRead(f.number, f.name, TypeName(f.value), ValueText(f.value))
  }

  function StoredDocument(d: Document): seq<FieldRead> {
    seq(|d|, i requires 0 <= i < |d| => Stored(d[i]))
  }

  function StoredDocuments(ds: seq<Document>): seq<DocumentRead> {
    seq(|ds|, i requires 0 <= i < |ds| => DocumentRead(i, StoredDocument(ds[i])))
  }

  lemma {:induction false} FieldsConcat(fs: seq<FieldRead>, a: seq<string>, b: seq<string>)
    ensures ReadFields(fs, a + b) == ReadFields(ReadFields(fs, a), b)
  {
    hide OnFields;
    if b == [] {
      assert a + b == a;
    } else {
      FieldsConcat(fs, a, b[..|b| - 1]);
      assert (a + b)[..|a + b| - 1] == a + b[..|b| - 1];
    }
  }

  lemma {:induction false} DocumentsConcat(ds: seq<DocumentRead>, a: seq<string>, b: seq<string>)
    ensures ReadDocuments(ds, a + b) == ReadDocuments(ReadDocuments(ds, a), b)
  {
    hide OnDocuments;
    if b == [] {
      assert a + b == a;
    } else {
      DocumentsConcat(ds, a, b[..|b| - 1]);
      assert (a + b)[..|a + b| - 1] == a + b[..|b| - 1];
    }
  }

  lemma OneLine(fs: seq<FieldRead>, ds: seq<DocumentRead>, line: string)
    ensures ReadFields(fs, [line]) == OnFields(fs, line) && ReadDocuments(ds, [line]) == OnDocuments(ds, line)
  {
    hide OnFields, OnDocuments;
    assert [line][..0] == [];
    assert ReadFields(fs, [line][..0]) == fs && ReadDocuments(ds, [line][..0]) == ds;
  }

  // A field

  /** A label is told by its character at place 2, or else at place 4. */
  lemma Labels(line: string)
    ensures HasPrefix(line, STORED_FIELD_DOC) ==> |line| > 2 && line[2] == 'c'
    ensures HasPrefix(line, STORED_FIELD_FIELD) ==> |line| > 2 && line[2] == 'f'
    ensures HasPrefix(line, STORED_FIELD_NAME) ==> |line| > 4 && line[2] == ' ' && line[4] == 'n'
    ensures HasPrefix(line, STORED_FIELD_TYPE) ==> |line| > 4 && line[2] == ' ' && line[4] == 't'
    ensures HasPrefix(line, STORED_FIELD_VALUE) ==> |line| > 4 && line[2] == ' ' && line[4] == 'v'
  {
    LabelAt(line, STORED_FIELD_DOC, 2);
    LabelAt(line, STORED_FIELD_FIELD, 2);
    LabelAt(line, STORED_FIELD_NAME, 2);
    LabelAt(line, STORED_FIELD_NAME, 4);
    LabelAt(line, STORED_FIELD_TYPE, 2);
    LabelAt(line, STORED_FIELD_TYPE, 4);
    LabelAt(line, STORED_FIELD_VALUE, 2);
    LabelAt(line, STORED_FIELD_VALUE, 4);
  }

  lemma LabelAt(line: string, tag: string, i: nat)
    requires i < |tag|
    ensures HasPrefix(line, tag) ==> i < |line| && line[i] == tag[i]
  {
    if HasPrefix(line, tag) {
      PrefixAt(line, tag, i);
    }
  }

  lemma NumberBack(n: int)
    requires -0x8000_0000_0000_0000 <= n < 0x8000_0000_0000_0000
    ensures NumberIn(Itoa(n)) == n
  {
    Powers.LargePowers();
    ItoaRoundTrip(n, 64);
  }

  /** One of the four lines of a field. */
  lemma OneOfFour(fs: seq<FieldRead>, g: FieldRead, f: Field, k: nat)
    requires k < 4
    ensures k == 0 ==> OnFields(fs, FieldLine(f, 0)) == fs + [FieldRead(f.number, "", "", "")]
    ensures k == 1 ==> OnFields(fs + [g], FieldLine(f, 1)) == fs + [g.(name := f.name)]
    ensures k == 2 ==> OnFields(fs + [g], FieldLine(f, 2)) == fs + [g.(typeName := TypeName(f.value))]
    ensures k == 3 ==> OnFields(fs + [g], FieldLine(f, 3)) == fs + [g.(text := ValueText(f.value))]
  {
    hide HasPrefix, NumberIn, Itoa, TypeName, ValueText;
    Labels(FieldLine(f, k));
    match k
    case 0 =>
      OwnLabel(STORED_FIELD_FIELD, Itoa(f.number));
      NumberBack(f.number);
    case 1 => OwnLabel(STORED_FIELD_NAME, f.name);
    case 2 => OwnLabel(STORED_FIELD_TYPE, TypeName(f.value));
    case _ => OwnLabel(STORED_FIELD_VALUE, ValueText(f.value));
  }

  lemma FieldSaid(fs: seq<FieldRead>, f: Field)
    ensures ReadFields(fs, FieldLines(f)) == fs + [Stored(f)]
  {
    hide OnFields, FieldLine, TypeName, ValueText, ReadFields;
    var a, b, c, d := [FieldLine(f, 0)], [FieldLine(f, 1)], [FieldLine(f, 2)], [FieldLine(f, 3)];
    assert FieldLines(f) == a + b + c + d;
    FieldsConcat(fs, a + b + c, d);
    FieldsConcat(fs, a + b, c);
    FieldsConcat(fs, a, b);
    var bare := FieldRead(f.number, "", "", "");
    OneLine(fs, [], FieldLine(f, 0));
    OneOfFour(fs, bare, f, 0);
    OneLine(fs + [bare], [], FieldLine(f, 1));
    OneOfFour(fs, bare, f, 1);
    var named := bare.(name := f.name);
    OneLine(fs + [named], [], FieldLine(f, 2));
    OneOfFour(fs, named, f, 2);
    var typed := named.(typeName := TypeName(f.value));
    OneLine(fs + [typed], [], FieldLine(f, 3));
    OneOfFour(fs, typed, f, 3);
  }

  lemma NoLines(fs: seq<FieldRead>, ds: seq<DocumentRead>)
    ensures ReadFields(fs, []) == fs && ReadDocuments(ds, []) == ds
  {
  }

  lemma {:induction false} FieldsSaid(d: Document)
    ensures ReadFields([], DocumentLines(d)) == StoredDocument(d)
  {
    hide ReadFields, FieldLines, Stored;
    if d == [] {
      NoLines([], []);
    } else {
      var n := |d| - 1;
      FieldsSaid(d[..n]);
      FieldsConcat([], DocumentLines(d[..n]), FieldLines(d[n]));
      FieldSaid(StoredDocument(d[..n]), d[n]);
      assert StoredDocument(d) == StoredDocument(d[..n]) + [Stored(d[n])];
    }
  }

  // Documents

  lemma {:induction false} ReadInDocument(ds: seq<DocumentRead>, d: DocumentRead, lines: seq<string>)
    requires forall line <- lines :: !HasPrefix(line, STORED_FIELD_DOC)
    ensures ReadDocuments(ds + [d], lines) == ds + [d.(fields := ReadFields(d.fields, lines))]
  {
    hide HasPrefix, OnFields;
    if lines != [] {
      var n := |lines| - 1;
      assert lines[n] in lines;
      ReadInDocument(ds, d, lines[..n]);
    }
  }

  lemma DocumentSaid(ds: seq<DocumentRead>, i: nat, d: Document)
    requires i < 0x8000_0000_0000_0000
    ensures ReadDocuments(ds, DocLine(i) + DocumentLines(d)) == ds + [DocumentRead(i, StoredDocument(d))]
  {
    hide ReadDocuments, ReadFields, DocumentLines, HasPrefix, NumberIn, Itoa;
    DocumentsConcat(ds, DocLine(i), DocumentLines(d));
    OwnLabel(STORED_FIELD_DOC, Itoa(i));
    NumberBack(i);
    OneLine([], ds, STORED_FIELD_DOC + Itoa(i));
    DocumentIs(d);
    ReadInDocument(ds, DocumentRead(i, []), DocumentLines(d));
    FieldsSaid(d);
  }

  lemma {:induction false} DocumentsSaid(ds: seq<Document>)
    requires |ds| <= 0x8000_0000_0000_0000
    ensures ReadDocuments([], DocumentsLines(ds)) == StoredDocuments(ds)
  {
    hide ReadDocuments, DocumentLines, DocLine, StoredDocument;
    if ds == [] {
      NoLines([], []);
    } else {
      var n := |ds| - 1;
      var before, own := DocumentsLines(ds[..n]), DocLine(n) + DocumentLines(ds[n]);
      DocumentsSaid(ds[..n]);
      DocumentsConcat([], before, own);
      assert before + DocLine(n) + DocumentLines(ds[n]) == before + own;
      DocumentSaid(StoredDocuments(ds[..n]), n, ds[n]);
      assert StoredDocuments(ds) == StoredDocuments(ds[..n]) + [DocumentRead(n, StoredDocument(ds[n]))];
    }
  }

  /** The end line and the checksum have no label. */
  lemma EndSaid(ds: seq<DocumentRead>, line: string, checksum: string)
    requires line == STORED_FIELD_END || line == CHECKSUM + checksum
    ensures OnDocuments(ds, line) == ds
  {
    hide HasPrefix;
    Labels(line);
    assert line == CHECKSUM + checksum ==> line[2] == 'e';
    if ds != [] {
      NoLabel(ds[|ds| - 1].fields, line);
    }
  }

  lemma NoLabel(fs: seq<FieldRead>, line: string)
    requires |line| > 2 ==> line[2] != 'f' && line[2] != ' '
    ensures OnFields(fs, line) == fs
  {
    hide HasPrefix;
    Labels(line);
  }

  /** The whole file says which documents there are and, of each field, its number, its name,
      its type and its value, in order. */
  lemma FileSaid(ds: seq<Document>, checksum: string)
    requires |ds| <= 0x8000_0000_0000_0000
    ensures ReadDocuments([], FileLines(ds, checksum)) == StoredDocuments(ds)
  {
    hide ReadDocuments, DocumentsLines, StoredDocuments, OnDocuments;
    DocumentsSaid(ds);
    var stored := StoredDocuments(ds);
    DocumentsConcat([], DocumentsLines(ds), [STORED_FIELD_END, CHECKSUM + checksum]);
    assert [STORED_FIELD_END, CHECKSUM + checksum] == [STORED_FIELD_END] + [CHECKSUM + checksum];
    DocumentsConcat(stored, [STORED_FIELD_END], [CHECKSUM + checksum]);
    OneLine([], stored, STORED_FIELD_END);
    OneLine([], stored, CHECKSUM + checksum);
    EndSaid(stored, STORED_FIELD_END, checksum);
    EndSaid(stored, CHECKSUM + checksum, checksum);
  }

  /** Type and text determine the value. */
  lemma SameValue(v: Value, w: Value)
    requires TypeName(v) == TypeName(w) && ValueText(v) == ValueText(w)
    ensures v == w
  {
    ValueRoundTrip(v);
    ValueRoundTrip(w);
  }

  /** So only the same documents print the same file. */
  lemma SameFile(ds: seq<Document>, ds': seq<Document>, checksum: string, checksum': string)
    requires |ds| <= 0x8000_0000_0000_0000 && |ds'| <= 0x8000_0000_0000_0000
    requires Print(FileLines(ds, checksum)) == Print(FileLines(ds', checksum'))
    ensures ds == ds'
  {
    hide Print, FileLines, TypeName, ValueText;
    PrintInjective(FileLines(ds, checksum), FileLines(ds', checksum'));
    FileSaid(ds, checksum);
    FileSaid(ds', checksum');
    assert |ds| == |StoredDocuments(ds)| == |ds'|;
    forall i | 0 <= i < |ds| ensures ds[i] == ds'[i] {
      assert StoredDocuments(ds)[i] == StoredDocuments(ds')[i];
      SameDocument(ds[i], ds'[i]);
    }
  }

  lemma SameDocument(d: Document, d': Document)
    requires StoredDocument(d) == StoredDocument(d')
    ensures d == d'
  {
    hide TypeName, ValueText;
    assert |d| == |StoredDocument(d)| == |d'|;
    forall j | 0 <= j < |d| ensures d[j] == d'[j] {
      assert StoredDocument(d)[j] == StoredDocument(d')[j];
      SameValue(d[j].value, d'[j].value);
    }
  }
}
