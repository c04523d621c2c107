/** Stored fields as text (codecs/simpletext/storedfieldswriter.go and
    storedfieldsreader.go). */
module StoredFields {
  import opened Text
  import opened Numerals

  const STORED_FIELD_END := "END"
  const STORED_FIELD_DOC := "doc "
  const STORED_FIELD_FIELD := "  field "
  const STORED_FIELD_NAME := "    name "
  const STORED_FIELD_TYPE := "    type "
  const STORED_FIELD_VALUE := "    value "
  const CHECKSUM := "checksum "
  const TYPE_STRING := "string"
  const TYPE_BINARY := "binary"
  const TYPE_INT := "int"
  const TYPE_LONG := "long"

  type Int32 = n: int | -0x8000_0000 <= n < 0x8000_0000
  type Int64 = n: int | -0x8000_0000_0000_0000 <= n < 0x8000_0000_0000_0000
  type FieldNumber = n: int | 0 <= n < 0x8000_0000

  /** A stored value: a string or bytes with any content, or a number. */
  datatype Value = StringValue(s: string) | BinaryValue(b: string) | IntValue(i: Int32) | LongValue(l: Int64)

  datatype Field = Field(number: FieldNumber, name: string, value: Value)

  type Document = seq<Field>

  function TypeName(v: Value): string {
    match v
    case StringValue(_) => TYPE_STRING
    case BinaryValue(_) => TYPE_BINARY
    case IntValue(_) => TYPE_INT
    case LongValue(_) => TYPE_LONG
  }

  function ValueText(v: Value): string {
    match v
    case StringValue(s) => s
    case BinaryValue(b) => b
    case IntValue(i) => Itoa(i)
    case LongValue(l) => Itoa(l)
  }

  // Lines

  function FieldLine(f: Field, k: nat): string {
    if k == 0 then STORED_FIELD_FIELD + Itoa(f.number)
    else if k == 1 then STORED_FIELD_NAME + f.name
    else if k == 2 then STORED_FIELD_TYPE + TypeName(f.value)
    else STORED_FIELD_VALUE + ValueText(f.value)
  }

  function FieldLines(f: Field): (lines: seq<string>)
    ensures |lines| == 4
  {
    seq(4, k requires 0 <= k < 4 => FieldLine(f, k))
  }

  function DocumentLines(d: Document): seq<string> {
    if d == [] then [] else DocumentLines(d[..|d| - 1]) + FieldLines(d[|d| - 1])
  }

  function DocLine(i: nat): seq<string> {
    [STORED_FIELD_DOC + Itoa(i)]
  }

  function DocumentsLines(ds: seq<Document>): seq<string> {
    if ds == [] then []
    else DocumentsLines(ds[..|ds| - 1]) + DocLine(|ds| - 1) + DocumentLines(ds[|ds| - 1])
  }

  function FileLines(ds: seq<Document>, checksum: string): seq<string> {
    DocumentsLines(ds) + [STORED_FIELD_END, CHECKSUM + checksum]
  }

  // The writer

  class StoredFieldsWriter {
    const out: IndexOutput
    var numDocsWritten: nat

    constructor (out: IndexOutput)
      ensures this.out == out && numDocsWritten == 0
    {
      this.out := out;
      numDocsWritten := 0;
    }

    method StartDocument()
      modifies this, out
      ensures numDocsWritten == old(numDocsWritten) + 1
      ensures out.data == old(out.data) + Print(DocLine(old(numDocsWritten)))
    {
      out.WriteLabel(STORED_FIELD_DOC, Itoa(numDocsWritten));
      PrintOne(STORED_FIELD_DOC + Itoa(numDocsWritten));
      numDocsWritten := numDocsWritten + 1;
    }

    method WriteField(f: Field)
      modifies out
      ensures out.data == old(out.data) + Print(FieldLines(f))
    {
      ghost var start, lines := out.data, FieldLines(f);
      assert start + Print(lines[..0]) == start;
      hide Print;
      out.PutLine(STORED_FIELD_FIELD, Itoa(f.number), start, lines, 0);
      out.PutLine(STORED_FIELD_NAME, f.name, start, lines, 1);
      out.PutLine(STORED_FIELD_TYPE, TypeName(f.value), start, lines, 2);
      out.PutLine(STORED_FIELD_VALUE, ValueText(f.value), start, lines, 3);
      PrintAll(lines);
    }

    /** One document: its line, its fields. */
    method WriteDocument(d: Document)
      modifies this, out
      ensures numDocsWritten == old(numDocsWritten) + 1
      ensures out.data == old(out.data) + Print(DocLine(old(numDocsWritten)) + DocumentLines(d))
    {
      hide Print, FieldLines;
      ghost var start, head := out.data, DocLine(numDocsWritten);
      StartDocument();
      assert head + DocumentLines(d[..0]) == head;
      var i := 0;
      while i < |d|
        invariant 0 <= i <= |d| && numDocsWritten == old(numDocsWritten) + 1
        invariant out.data == start + Print(head + DocumentLines(d[..i]))
      {
        WriteField(d[i]);
        assert d[..i + 1][..i] == d[..i];
        PrintAfter(start, head + DocumentLines(d[..i]), FieldLines(d[i]));
        assert head + DocumentLines(d[..i]) + FieldLines(d[i]) == head + DocumentLines(d[..i + 1]);
        i := i + 1;
      }
      assert d[..i] == d;
    }

    /** Finish: the end of the file, unless the documents do not add up. */
    method Finish(numDocs: nat, checksum: string) returns (ok: bool)
      modifies out
      ensures ok <==> numDocs == numDocsWritten
      ensures out.data == if ok then old(out.data) + Print([STORED_FIELD_END, CHECKSUM + checksum]) else old(out.data)
    {
      if numDocsWritten != numDocs {
        return false;
      }
      ghost var start := out.data;
      out.WriteLabel(STORED_FIELD_END, "");
      assert STORED_FIELD_END + "" == STORED_FIELD_END;
      PrintOne(STORED_FIELD_END);
      out.WriteLabel(CHECKSUM, checksum);
      PrintOne(CHECKSUM + checksum);
      PrintAfter(start, [STORED_FIELD_END], [CHECKSUM + checksum]);
      assert [STORED_FIELD_END] + [CHECKSUM + checksum] == [STORED_FIELD_END, CHECKSUM + checksum];
      return true;
    }
  }

  // Labels

  /** Only document lines start with the document label, only field lines with the
      field label, and only the last line but one is the end line. */
  lemma FieldLineIs(f: Field, k: nat)
    requires k < 4
    ensures !HasPrefix(FieldLine(f, k), STORED_FIELD_DOC) && FieldLine(f, k) != STORED_FIELD_END
  {
    assert FieldLine(f, k)[0] == ' ';
    if HasPrefix(FieldLine(f, k), STORED_FIELD_DOC) {
      PrefixAt(FieldLine(f, k), STORED_FIELD_DOC, 0);
    }
  }

  lemma {:induction false} DocumentIs(d: Document)
    ensures forall line <- DocumentLines(d) :: !HasPrefix(line, STORED_FIELD_DOC) && line != STORED_FIELD_END
  {
    if d != [] {
      hide HasPrefix, FieldLine;
      var n := |d| - 1;
      DocumentIs(d[..n]);
      forall k | 0 <= k < 4
        ensures !HasPrefix(FieldLines(d[n])[k], STORED_FIELD_DOC) && FieldLines(d[n])[k] != STORED_FIELD_END
      {
        FieldLineIs(d[n], k);
      }
    }
  }

  /** A line that ends a document is no field line. */
  lemma OtherLine(line: string)
    requires HasPrefix(line, STORED_FIELD_DOC) || line == STORED_FIELD_END
    ensures !HasPrefix(line, STORED_FIELD_FIELD)
  {
    if HasPrefix(line, STORED_FIELD_FIELD) {
      PrefixAt(line, STORED_FIELD_FIELD, 0);
      if HasPrefix(line, STORED_FIELD_DOC) {
        PrefixAt(line, STORED_FIELD_DOC, 0);
      }
    }
  }

  // The offsets

  /** The offsets after scanning some lines. */
  function Offsets(lines: seq<string>, pos: nat): seq<nat> {
    if lines == [] then []
    else
      Offsets(lines[..|lines| - 1], pos) +
      (if HasPrefix(lines[|lines| - 1], STORED_FIELD_DOC) then [pos + |Print(lines)|] else [])
  }

  lemma {:induction false} OffsetsConcat(a: seq<string>, b: seq<string>, pos: nat)
    ensures Offsets(a + b, pos) == Offsets(a, pos) + Offsets(b, pos + |Print(a)|)
  {
    hide HasPrefix, Print;
    PrintConcat(a, b);
    if b == [] {
      assert a + b == a;
    } else {
      var n := |b| - 1;
      OffsetsConcat(a, b[..n], pos);
      assert (a + b)[..|a + b| - 1] == a + b[..n];
    }
  }

  lemma {:induction false} NoOffsets(lines: seq<string>, pos: nat)
    requires forall line <- lines :: !HasPrefix(line, STORED_FIELD_DOC)
    ensures Offsets(lines, pos) == []
  {
    if lines != [] {
      var n := |lines| - 1;
      assert lines[n] in lines;
      NoOffsets(lines[..n], pos);
    }
  }

  /** Where the fields of a document start. */
  ghost function DocumentPos(ds: seq<Document>, i: nat): nat
    requires i < |ds|
  {
    |Print(DocumentsLines(ds[..i]) + DocLine(i))|
  }

  /** One offset per document: where its fields start. */
  lemma {:induction false} OffsetsRecovered(ds: seq<Document>, n: nat)
    requires n <= |ds|
    ensures |Offsets(DocumentsLines(ds[..n]), 0)| == n
    ensures forall i | 0 <= i < n :: Offsets(DocumentsLines(ds[..n]), 0)[i] == DocumentPos(ds, i)
  {
    hide Offsets, Print, DocLine, DocumentLines, HasPrefix;
    if n == 0 {
      assert ds[..0] == [];
      NoOffsets([], 0);
    } else {
      OffsetsRecovered(ds, n - 1);
      assert ds[..n][..n - 1] == ds[..n - 1];
      var before, head, body := DocumentsLines(ds[..n - 1]), DocLine(n - 1), DocumentLines(ds[n - 1]);
      OffsetsConcat(before + head, body, 0);
      OffsetsConcat(before, head, 0);
      DocumentIs(ds[n - 1]);
      NoOffsets(body, |Print(before + head)|);
      PrintConcat(before, head);
      OneOffset(n - 1, |Print(before)|);
    }
  }

  lemma OneOffset(i: nat, pos: nat)
    ensures Offsets(DocLine(i), pos) == [pos + |Print(DocLine(i))|]
  {
    OwnLabel(STORED_FIELD_DOC, Itoa(i));
    assert DocLine(i)[..0] == [];
    assert Offsets(DocLine(i)[..0], pos) == [];
  }

  lemma {:induction false} DocumentsDoNotEnd(ds: seq<Document>)
    ensures forall line <- DocumentsLines(ds) :: line != STORED_FIELD_END
  {
    if ds != [] {
      hide DocumentLines;
      var n := |ds| - 1;
      DocumentsDoNotEnd(ds[..n]);
      DocumentIs(ds[n]);
    }
  }
}
