/** What the stored fields writer prints is what the stored fields reader delivers. */
module StoredFieldsRoundTrip {
  import opened Text
  import opened Numerals
  import opened StoredFields
  import opened StoredFieldsReader

  lemma {:induction false} DocumentsSplit(ds: seq<Document>, i: nat) returns (tail: seq<string>)
    requires i < |ds|
    ensures DocumentsLines(ds) == DocumentsLines(ds[..i]) + DocLine(i) + DocumentLines(ds[i]) + tail
    ensures tail != [] ==> HasPrefix(tail[0], STORED_FIELD_DOC)
  {
    hide DocumentLines;
    var n := |ds| - 1;
    if i == n {
      tail := [];
    } else {
      var rest := DocumentsSplit(ds[..n], i);
      assert ds[..n][..i] == ds[..i];
      tail := rest + DocLine(n) + DocumentLines(ds[n]);
      OwnLabel(STORED_FIELD_DOC, Itoa(n));
      Regroup(DocumentsLines(ds[..i]) + DocLine(i) + DocumentLines(ds[i]), rest, DocLine(n), DocumentLines(ds[n]));
    }
  }

  lemma Regroup(a: seq<string>, b: seq<string>, c: seq<string>, d: seq<string>)
    ensures a + b + c + d == a + (b + c + d)
  {
  }

  /** The lines of document i start where its offset says. */
  lemma DocumentIsThere(data: string, ds: seq<Document>, checksum: string, i: nat)
    requires i < |ds| && data == Print(FileLines(ds, checksum))
    ensures var lines, k := FileLines(ds, checksum), |DocumentsLines(ds[..i])| + 1;
            Reading(data, 0, lines, DocumentPos(ds, i), k) && DocumentAt(lines, k, ds[i])
  {
    hide Print, DocumentsLines, DocumentLines;
    var lines := FileLines(ds, checksum);
    var tail := DocumentsSplit(ds, i);
    var before, own := DocumentsLines(ds[..i]) + DocLine(i), DocumentLines(ds[i]);
    var after := tail + [STORED_FIELD_END, CHECKSUM + checksum];
    Regroup(before, own, tail, [STORED_FIELD_END, CHECKSUM + checksum]);
    assert lines == before + (own + after);
    assert lines[..|before|] == before;
    assert data[0..|data|] == data;
    assert lines[|before|..|before| + |own|] == own && lines[|before| + |own|] == after[0];
  }

  /** Writing documents and visiting one of them: a visitor gets exactly the fields
      it accepts, in order, with the values that were stored. */
  method WriteAndVisit(ds: seq<Document>, checksum: string, docID: nat, visitor: StoredFieldVisitor) returns (ok: bool)
    requires docID < |ds|
    modifies visitor
    ensures ok && visitor.seen == Delivered(visitor.chooser, old(visitor.seen), ds[docID], 0)
  {
    hide Print, DocumentsLines, FileLines, DocumentAt, Reading, Delivered, Offsets;
    var data := WriteFile(ds, checksum);
    var input := new IndexInput(data);
    var reader := new Reader(input);
    ok := OpenFile(reader, ds, checksum);
    if !ok || docID >= |reader.offsets| {
      return false;
    }
    DocumentIsThere(data, ds, checksum, docID);
    ok := reader.VisitDocument(docID, visitor, FileLines(ds, checksum), |DocumentsLines(ds[..docID])| + 1, ds[docID]);
  }

  method WriteFile(ds: seq<Document>, checksum: string) returns (data: string)
    ensures data == Print(FileLines(ds, checksum))
  {
    hide Print, DocumentLines;
    var out := new IndexOutput();
    var writer := new StoredFieldsWriter(out);
    NothingPrinted();
    var i := 0;
    while i < |ds|
      invariant 0 <= i <= |ds| && writer.numDocsWritten == i
      invariant out.data == Print(DocumentsLines(ds[..i]))
    {
      writer.WriteDocument(ds[i]);
      assert ds[..i + 1][..i] == ds[..i];
      PrintConcat(DocumentsLines(ds[..i]), DocLine(i) + DocumentLines(ds[i]));
      assert DocumentsLines(ds[..i]) + (DocLine(i) + DocumentLines(ds[i])) == DocumentsLines(ds[..i + 1]);
      i := i + 1;
    }
    assert ds[..i] == ds;
    var ok := writer.Finish(|ds|, checksum);
    PrintConcat(DocumentsLines(ds), [STORED_FIELD_END, CHECKSUM + checksum]);
    return out.data;
  }

  lemma NothingPrinted()
    ensures Print([]) == []
  {
  }

  method OpenFile(reader: Reader, ghost ds: seq<Document>, ghost checksum: string) returns (ok: bool)
    requires reader.input.pos == 0 && reader.input.data == Print(FileLines(ds, checksum))
    modifies reader, reader.input
    ensures ok && |reader.offsets| == |ds| && forall i | 0 <= i < |ds| :: reader.offsets[i] == DocumentPos(ds, i)
  {
    hide Print, DocumentsLines, DocumentPos, Offsets;
    ghost var lines, e := FileLines(ds, checksum), |DocumentsLines(ds)|;
    assert lines[..e] == DocumentsLines(ds) && lines[e] == STORED_FIELD_END;
    DocumentsDoNotEnd(ds);
    forall i | 0 <= i < e ensures lines[i] != STORED_FIELD_END {
      assert lines[i] == DocumentsLines(ds)[i] && DocumentsLines(ds)[i] in DocumentsLines(ds);
    }
    assert reader.input.data[0..|reader.input.data|] == reader.input.data;
    ok := reader.ReadIndex(lines, e);
    OffsetsRecovered(ds, |ds|);
    assert ds[..|ds|] == ds;
  }
}
