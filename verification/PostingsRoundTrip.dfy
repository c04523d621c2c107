/** What the postings writer prints is what the postings reader recovers. */
module PostingsRoundTrip {
  import opened Bytes
  import opened Text
  import opened PostingsText
  import opened PostingsScan
  import opened PostingsFile
  import opened PostingsWriter
  import opened PostingsReader

  /** The position of a line is known from the lines before it. */
  lemma Located(data: string, lines: seq<string>, before: seq<string>, rest: seq<string>, pos: nat)
    requires data == Print(lines) && lines == before + rest && pos == |Print(before)|
    ensures Reading(data, 0, lines, pos, |before|)
  {
    assert lines[..|before|] == before;
    assert data[0..|data|] == data;
  }

  /** The number of the line at which the terms of a field start. */
  ghost function TermsIndex(fs: seq<Field>, m: nat): nat
    requires m < |fs|
  {
    |FieldsLines(fs[..m])| + 1
  }

  lemma TermsAreThere(data: string, fs: seq<Field>, checksum: string, m: nat)
    requires m < |fs| && Inhabited(fs[m].terms) && data == Print(FileLines(fs, checksum))
    ensures var lines, k := FileLines(fs, checksum), TermsIndex(fs, m);
            var e := k + |TermsLines(fs[m], fs[m].terms)|;
            && Reading(data, 0, lines, TermsStart(fs[m], FieldPos(fs, m)), k)
            && FieldBody(lines, k, e) && lines[k..e] == TermsLines(fs[m], fs[m].terms)
  {
    hide Print, FieldsLines, TermsLines, Inhabited, FileLines, Inside, EndsField, Reading;
    var f, lines := fs[m], FileLines(fs, checksum);
    var rest := FieldInFile(fs, checksum, m);
    var line := FIELDS_FIELD + f.name;
    var before, body := FieldsLines(fs[..m]) + [line], TermsLines(f, f.terms);
    PrintConcat(FieldsLines(fs[..m]), [line]);
    PrintOne(line);
    assert lines == before + (body + rest);
    Located(data, lines, before, body + rest, TermsStart(f, FieldPos(fs, m)));
    TermsInside(f, f.terms);
    var k := TermsIndex(fs, m);
    var e := k + |body|;
    assert lines[k..e] == body && lines[e] == rest[0];
    forall i | k <= i < e ensures Inside(lines[i]) {
      assert lines[i] == body[i - k];
    }
  }

  /** The number of the line at which the documents of a term start. */
  ghost function DocsIndex(fs: seq<Field>, m: nat, i: nat): nat
    requires m < |fs| && i < |fs[m].terms|
  {
    TermsIndex(fs, m) + |TermsLines(fs[m], fs[m].terms[..i])| + 1
  }

  lemma DocsAreThere(data: string, fs: seq<Field>, checksum: string, m: nat, i: nat)
    requires m < |fs| && i < |fs[m].terms| && fs[m].terms[i].postings != []
    requires data == Print(FileLines(fs, checksum))
    ensures var lines, f := FileLines(fs, checksum), fs[m];
            var start := TermPos(f, f.terms, i, TermsStart(f, FieldPos(fs, m)));
            && Reading(data, 0, lines, DocsStart(f.terms[i], start), DocsIndex(fs, m, i))
            && PostingsAt(lines, DocsIndex(fs, m, i), f, f.terms[i].postings)
  {
    hide Print, FieldsLines, TermsLines, FileLines, PostingsLines, EndsField, EndsTerm, Reading;
    var f, lines, t := fs[m], FileLines(fs, checksum), fs[m].terms[i];
    assert t in f.terms && Inhabited(f.terms);
    var rest := FieldInFile(fs, checksum, m);
    var tail := TermInField(f, i, rest);
    var a, b, c, d := FieldsLines(fs[..m]), [FIELDS_FIELD + f.name], TermsLines(f, f.terms[..i]),
         [FIELDS_TERM + t.text];
    var docs := PostingsLines(f, t.postings);
    PrintConcat(a, b);
    PrintConcat(a + b, c);
    PrintConcat(a + b + c, d);
    PrintOne(FIELDS_FIELD + f.name);
    PrintOne(FIELDS_TERM + t.text);
    Regroup(a, b, TermsLines(f, f.terms), rest, c, d, docs, tail);
    Located(data, lines, a + b + c + d, docs + tail, |Print(a + b + c + d)|);
    Behind(lines, a + b + c + d, docs, tail);
  }

  lemma Regroup(a: seq<string>, b: seq<string>, x: seq<string>, y: seq<string>,
                c: seq<string>, d: seq<string>, e: seq<string>, t: seq<string>)
    requires x + y == c + d + e + t
    ensures a + b + x + y == a + b + c + d + (e + t)
  {
    assert a + b + x + y == a + b + (x + y);
  }

  lemma Behind(lines: seq<string>, a: seq<string>, b: seq<string>, c: seq<string>)
    requires lines == a + (b + c) && c != []
    ensures lines[|a|..|a| + |b|] == b && lines[|a| + |b|] == c[0]
  {
  }

  /** What is read back of one term, and of its field. */
  datatype Recall = Recall(output: Output, sumTotalTermFreq: int, sumDocFreq: int, docCount: int, termCount: int,
                           docs: seq<(int, int)>)

  ghost function Recalled(fs: seq<Field>, m: nat, i: nat): Recall
    requires m < |fs| && i < |fs[m].terms|
  {
    var f := fs[m];
    var start := TermPos(f, f.terms, i, TermsStart(f, FieldPos(fs, m)));
    Recall(OutputOf(f, f.terms[i], start), TotalFreqs(f, f.terms), DocFreqs(f.terms), |AllDocs(f.terms)|,
           InhabitedCount(f.terms), Delivered(f, f.terms[i].postings))
  }

  /** Writing any fields and reading one of their terms back. */
  method WriteAndRead(fs: seq<Field>, checksum: string, name: string, text: string, omitTF: bool,
                      ghost m: nat, ghost i: nat) returns (r: Option<Recall>)
    requires DistinctFields(fs) && (forall f <- fs :: Distinct(f.terms))
    requires m < |fs| && fs[m].name == name && omitTF == !fs[m].hasFreqs
    requires i < |fs[m].terms| && fs[m].terms[i].text == text && fs[m].terms[i].postings != []
    ensures r == Some(Recalled(fs, m, i))
  {
    hide Print, FieldsLines, TermsLines, FileLines, Reading, FieldBody, PostingsAt;
    var data := WriteFile(fs, checksum);
    assert fs[m].terms[i] in fs[m].terms && Inhabited(fs[m].terms);
    var fields := ReadTable(data, fs, checksum);
    if fields.None? || name !in fields.value {
      return None;
    }
    r := ReadTerm(data, fields.value[name], text, omitTF, fs, checksum, m, i);
  }

  method WriteFile(fs: seq<Field>, checksum: string) returns (data: string)
    ensures data == Print(FileLines(fs, checksum))
  {
    hide Print, FieldsLines;
    var out := new IndexOutput();
    var writer := new TextFieldsWriter(out);
    writer.WriteFields(fs);
    writer.Close(checksum);
    PrintAfter([], FieldsLines(fs), Ending(checksum));
    return out.data;
  }

  method ReadTable(data: string, ghost fs: seq<Field>, ghost checksum: string) returns (r: Option<map<string, nat>>)
    requires data == Print(FileLines(fs, checksum)) && DistinctFields(fs)
    ensures r.Some? && FieldsRight(fs, |fs|, r.value)
  {
    hide Print, FieldsLines, FieldsRight, FieldTable;
    ghost var lines, e := FileLines(fs, checksum), |FieldsLines(fs)|;
    var input := new IndexInput(data);
    assert lines[..e] == FieldsLines(fs) && lines[e] == FIELDS_END;
    FieldsDoNotEnd(fs);
    forall i | 0 <= i < e ensures lines[i] != FIELDS_END {
      assert lines[i] == FieldsLines(fs)[i] && FieldsLines(fs)[i] in FieldsLines(fs);
    }
    assert data[0..|data|] == data;
    r := ReadFields(input, lines, e);
    FieldsRecovered(fs, |fs|);
    assert fs[..|fs|] == fs;
  }

  method ReadTerm(data: string, termsStart: nat, text: string, omitTF: bool,
                  ghost fs: seq<Field>, ghost checksum: string, ghost m: nat, ghost i: nat) returns (r: Option<Recall>)
    requires data == Print(FileLines(fs, checksum)) && m < |fs| && Distinct(fs[m].terms)
    requires i < |fs[m].terms| && fs[m].terms[i].text == text && fs[m].terms[i].postings != []
    requires omitTF == !fs[m].hasFreqs && termsStart == TermsStart(fs[m], FieldPos(fs, m))
    ensures r == Some(Recalled(fs, m, i))
  {
    hide Print, TermsLines, FieldsLines, FileLines, Reading, FieldBody, PostingsAt, FeedAll, TableRight, OutputOf;
    ghost var f, lines, k := fs[m], FileLines(fs, checksum), TermsIndex(fs, m);
    assert f.terms[i] in f.terms && Inhabited(f.terms);
    TermsAreThere(data, fs, checksum, m);
    var input := new IndexInput(data);
    var terms := new SimpleTextTerms();
    var ok := terms.LoadTerms(input, termsStart, lines, k, k + |TermsLines(f, f.terms)|);
    ScanRecovers(f, f.terms, |f.terms|, termsStart);
    assert f.terms[..|f.terms|] == f.terms;
    Entry(f, i, termsStart, terms.dictionary);
    if text !in terms.dictionary {
      return None;
    }
    var output := terms.dictionary[text];
    DocsAreThere(data, fs, checksum, m, i);
    ghost var docsStart := DocsStart(f.terms[i], TermPos(f, f.terms, i, termsStart));
    StartOf(f, f.terms[i], TermPos(f, f.terms, i, termsStart));
    if output.docsStart < 0 {
      return None;
    }
    var docs := ReadPostings(input, output.docsStart, omitTF, lines, DocsIndex(fs, m, i), f, f.terms[i].postings);
    return Some(Recall(output, terms.sumTotalTermFreq, terms.sumDocFreq, terms.docCount, terms.termCount, docs));
  }

  lemma Entry(f: Field, i: nat, pos: nat, table: map<string, Output>)
    requires i < |f.terms| && f.terms[i].postings != [] && TableRight(f, f.terms, |f.terms|, pos, table)
    ensures f.terms[i].text in table
    ensures table[f.terms[i].text] == OutputOf(f, f.terms[i], TermPos(f, f.terms, i, pos))
  {
  }

  lemma StartOf(f: Field, t: Term, pos: nat)
    ensures OutputOf(f, t, pos).docsStart == DocsStart(t, pos) >= 0
  {
  }
}
