/** The text postings writer (codecs/simpletext/fieldswriter.go). */
module PostingsWriter {
  import opened Text
  import opened Numerals
  import opened PostingsText

  lemma PrintNothing(start: string)
    ensures start + Print([]) == start
  {
  }

  class TextFieldsWriter {
    const out: IndexOutput

    constructor (out: IndexOutput)
      ensures this.out == out
    {
      this.out := out;
    }

    method WriteValue(tag: string, value: string)
      modifies out
      ensures out.data == old(out.data) + Print([tag + value])
    {
      out.WriteLabel(tag, value);
      PrintOne(tag + value);
    }

    method WritePosition(f: Field, p: Position)
      modifies out
      ensures out.data == old(out.data) + Print(PositionLines(f, p))
    {
      hide Print;
      ghost var start, lines := out.data, [FIELDS_POS + Itoa(p.pos)];
      WriteValue(FIELDS_POS, Itoa(p.pos));
      if f.hasOffsets {
        WriteValue(FIELDS_START_OFFSET, Itoa(p.startOffset));
        PrintAfter(start, lines, [FIELDS_START_OFFSET + Itoa(p.startOffset)]);
        lines := lines + [FIELDS_START_OFFSET + Itoa(p.startOffset)];
        WriteValue(FIELDS_END_OFFSET, Itoa(p.endOffset));
        PrintAfter(start, lines, [FIELDS_END_OFFSET + Itoa(p.endOffset)]);
        lines := lines + [FIELDS_END_OFFSET + Itoa(p.endOffset)];
      }
      if p.payload != [] {
        WriteValue(FIELDS_PAYLOAD, p.payload);
        PrintAfter(start, lines, [FIELDS_PAYLOAD + p.payload]);
        lines := lines + [FIELDS_PAYLOAD + p.payload];
      }
      assert lines == PositionLines(f, p);
    }

    method WritePositions(f: Field, ps: seq<Position>)
      modifies out
      ensures out.data == old(out.data) + Print(PositionsLines(f, ps))
    {
      hide Print, PositionLines;
      ghost var start := out.data;
      PrintNothing(start);
      var i := 0;
      while i < |ps|
        invariant 0 <= i <= |ps| && out.data == start + Print(PositionsLines(f, ps[..i]))
      {
        WritePosition(f, ps[i]);
        assert ps[..i + 1][..i] == ps[..i];
        PrintAfter(start, PositionsLines(f, ps[..i]), PositionLines(f, ps[i]));
        i := i + 1;
      }
      assert ps[..i] == ps;
    }

    /** One document of a term: the number, and what the field keeps of it. */
    method WritePosting(f: Field, p: Posting)
      modifies out
      ensures out.data == old(out.data) + Print(PostingLines(f, p))
    {
      hide Print, PositionsLines;
      ghost var start, lines := out.data, [FIELDS_DOC + Itoa(p.doc)];
      WriteValue(FIELDS_DOC, Itoa(p.doc));
      if f.hasFreqs {
        WriteValue(FIELDS_FREQ, Itoa(p.freq));
        PrintAfter(start, lines, [FIELDS_FREQ + Itoa(p.freq)]);
        lines := lines + [FIELDS_FREQ + Itoa(p.freq)];
        if f.hasPositions {
          WritePositions(f, p.positions);
          PrintAfter(start, lines, PositionsLines(f, p.positions));
          lines := lines + PositionsLines(f, p.positions);
        }
      }
      assert lines == PostingLines(f, p);
    }

    /** The documents of one term, with the lines that the first of them brings. */
    method WriteTerm(f: Field, t: Term, wroteField: bool) returns (wrote: bool)
      modifies out
      ensures wrote == (wroteField || t.postings != [])
      ensures out.data == old(out.data) + Print(HeadLines(f, !wroteField && wrote) + TermLines(f, t))
    {
      hide Print, PostingLines;
      ghost var start := out.data;
      ghost var head := HeadLines(f, !wroteField) + [FIELDS_TERM + t.text];
      PrintNothing(start);
      wrote := wroteField;
      var wroteTerm := false;
      var docCount := 0;
      while docCount < |t.postings|
        invariant 0 <= docCount <= |t.postings|
        invariant wroteTerm == (docCount > 0) && wrote == (wroteField || wroteTerm)
        invariant out.data == start + Print(if wroteTerm then head + PostingsLines(f, t.postings[..docCount]) else [])
      {
        if !wroteTerm {
          wrote := WriteHead(f, t, wrote);
          wroteTerm := true;
          assert head + PostingsLines(f, t.postings[..0]) == head;
        }
        var posting := t.postings[docCount];
        WritePosting(f, posting);
        assert t.postings[..docCount + 1][..docCount] == t.postings[..docCount];
        PrintAfter(start, head + PostingsLines(f, t.postings[..docCount]), PostingLines(f, posting));
        assert head + PostingsLines(f, t.postings[..docCount]) + PostingLines(f, posting)
               == head + PostingsLines(f, t.postings[..docCount + 1]);
        docCount := docCount + 1;
      }
      assert t.postings[..docCount] == t.postings;
      if docCount >= BLOCK_SIZE {
        WriteValue(SKIP_LIST, "");
        assert SKIP_LIST + "" == SKIP_LIST;
        PrintAfter(start, head + PostingsLines(f, t.postings), [SKIP_LIST]);
      } else {
        assert head + PostingsLines(f, t.postings) + SkipLines(docCount) == head + PostingsLines(f, t.postings);
      }
      if wroteTerm {
        assert head + PostingsLines(f, t.postings) + SkipLines(|t.postings|)
               == HeadLines(f, !wroteField) + TermLines(f, t);
      } else {
        assert HeadLines(f, false) + TermLines(f, t) == [];
      }
    }

    method WriteHead(f: Field, t: Term, wroteField: bool) returns (wrote: bool)
      modifies out
      ensures wrote
      ensures out.data == old(out.data) +
                          Print(HeadLines(f, !wroteField) + [FIELDS_TERM + t.text])
    {
      hide Print;
      ghost var start := out.data;
      wrote := true;
      if !wroteField {
        WriteValue(FIELDS_FIELD, f.name);
      }
      WriteValue(FIELDS_TERM, t.text);
      if !wroteField {
        PrintAfter(start, [FIELDS_FIELD + f.name], [FIELDS_TERM + t.text]);
      } else {
        assert [] + [FIELDS_TERM + t.text] == [FIELDS_TERM + t.text];
      }
    }

    method WriteField(f: Field)
      modifies out
      ensures out.data == old(out.data) + Print(FieldLines(f))
    {
      hide Print, TermLines;
      ghost var start := out.data;
      PrintNothing(start);
      assert HeadLines(f, false) + TermsLines(f, f.terms[..0]) == [];
      var wroteField := false;
      var i := 0;
      while i < |f.terms|
        invariant 0 <= i <= |f.terms| && wroteField == Inhabited(f.terms[..i])
        invariant out.data == start + Print(HeadLines(f, wroteField) + TermsLines(f, f.terms[..i]))
      {
        ghost var was := wroteField;
        var t := f.terms[i];
        wroteField := WriteTerm(f, t, wroteField);
        NextTerm(f, i);
        PrintAfter(start, HeadLines(f, was) + TermsLines(f, f.terms[..i]),
                   HeadLines(f, !was && wroteField) + TermLines(f, t));
        i := i + 1;
      }
      assert f.terms[..i] == f.terms;
    }

    method WriteFields(fs: seq<Field>)
      modifies out
      ensures out.data == old(out.data) + Print(FieldsLines(fs))
    {
      hide Print, FieldLines;
      ghost var start := out.data;
      PrintNothing(start);
      var i := 0;
      while i < |fs|
        invariant 0 <= i <= |fs| && out.data == start + Print(FieldsLines(fs[..i]))
      {
        WriteField(fs[i]);
        assert fs[..i + 1][..i] == fs[..i];
        PrintAfter(start, FieldsLines(fs[..i]), FieldLines(fs[i]));
        i := i + 1;
      }
      assert fs[..i] == fs;
    }

    /** Close: the end line and the checksum line. */
    method Close(checksum: string)
      modifies out
      ensures out.data == old(out.data) + Print([FIELDS_END, CHECKSUM + checksum])
    {
      hide Print;
      ghost var start := out.data;
      WriteValue(FIELDS_END, "");
      assert FIELDS_END + "" == FIELDS_END;
      WriteValue(CHECKSUM, checksum);
      PrintAfter(start, [FIELDS_END], [CHECKSUM + checksum]);
      assert [FIELDS_END] + [CHECKSUM + checksum] == [FIELDS_END, CHECKSUM + checksum];
    }
  }

  /** The field line stands before the first term that has documents, and only there. */
  lemma NextTerm(f: Field, i: nat)
    requires i < |f.terms|
    ensures var before, after := f.terms[..i], f.terms[..i + 1];
            && Inhabited(after) == (Inhabited(before) || f.terms[i].postings != [])
            && HeadLines(f, Inhabited(after)) + TermsLines(f, after) ==
               HeadLines(f, Inhabited(before)) + TermsLines(f, before) +
               (HeadLines(f, !Inhabited(before) && Inhabited(after)) + TermLines(f, f.terms[i]))
  {
    hide TermLines;
    var before, after := f.terms[..i], f.terms[..i + 1];
    assert after == before + [f.terms[i]] && after[..i] == before;
    if !Inhabited(before) {
      NoTermLines(f, before);
    }
  }

  lemma {:induction false} NoTermLines(f: Field, ts: seq<Term>)
    requires !Inhabited(ts)
    ensures TermsLines(f, ts) == []
  {
    if ts != [] {
      assert ts[|ts| - 1] in ts;
      NoTermLines(f, ts[..|ts| - 1]);
    }
  }
}
