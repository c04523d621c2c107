/** Where the parts of a postings file stand: its fields, the terms of a field, the
    documents of a term, and the lines that end them. */
module PostingsFile {
  import opened Text
  import opened Numerals
  import opened PostingsText
  import opened PostingsScan

  // What kinds of lines there are

  predicate EndsField(line: string) {
    line == FIELDS_END || HasPrefix(line, FIELDS_FIELD)
  }

  /** A line that ends a document without starting one. */
  predicate EndsTerm(line: string) {
    || HasPrefix(line, SKIP_LIST) || HasPrefix(line, FIELDS_TERM)
    || HasPrefix(line, FIELDS_FIELD) || HasPrefix(line, FIELDS_END)
  }

  predicate IsDetail(line: string) {
    || HasPrefix(line, FIELDS_POS) || HasPrefix(line, FIELDS_START_OFFSET)
    || HasPrefix(line, FIELDS_END_OFFSET) || HasPrefix(line, FIELDS_PAYLOAD)
  }

  /** Numbers behind document and frequency labels can be parsed. */
  predicate NumbersParse(line: string) {
    && (HasPrefix(line, FIELDS_DOC) ==> Atoi(line[|FIELDS_DOC|..]).Some?)
    && (HasPrefix(line, FIELDS_FREQ) ==> Atoi(line[|FIELDS_FREQ|..]).Some?)
  }

  /** A line inside a field. */
  predicate Inside(line: string) {
    && TagOf(line) != IsField && TagOf(line) != IsEnd && NumbersParse(line)
  }

  lemma InsideIsInside(line: string)
    requires Inside(line)
    ensures !EndsField(line)
  {
    OneLabel(line);
    OwnLabel(FIELDS_END, "");
    assert FIELDS_END + "" == FIELDS_END;
  }

  lemma InsideLabel(tag: string, rest: string)
    requires tag == FIELDS_TERM || tag == SKIP_LIST || tag == FIELDS_POS || tag == FIELDS_START_OFFSET
             || tag == FIELDS_END_OFFSET || tag == FIELDS_PAYLOAD
    ensures Inside(tag + rest)
  {
    hide TagOf;
    LabelOf(tag, rest);
    OneLabel(tag + rest);
  }

  lemma InsideNumber(tag: string, n: int)
    requires (tag == FIELDS_DOC || tag == FIELDS_FREQ) && 0 <= n < 0x8000_0000
    ensures Inside(tag + Itoa(n))
  {
    hide TagOf, Itoa;
    LabelOf(tag, Itoa(n));
    OneLabel(tag + Itoa(n));
    NumberIs(tag, n);
  }

  lemma PositionInside(f: Field, p: Position)
    ensures forall line <- PositionLines(f, p) :: Inside(line) && IsDetail(line)
  {
    hide Inside;
    InsideLabel(FIELDS_POS, Itoa(p.pos));
    InsideLabel(FIELDS_START_OFFSET, Itoa(p.startOffset));
    InsideLabel(FIELDS_END_OFFSET, Itoa(p.endOffset));
    InsideLabel(FIELDS_PAYLOAD, p.payload);
    OwnLabel(FIELDS_POS, Itoa(p.pos));
    OwnLabel(FIELDS_START_OFFSET, Itoa(p.startOffset));
    OwnLabel(FIELDS_END_OFFSET, Itoa(p.endOffset));
    OwnLabel(FIELDS_PAYLOAD, p.payload);
  }

  lemma {:induction false} PositionsInside(f: Field, ps: seq<Position>)
    ensures forall line <- PositionsLines(f, ps) :: Inside(line) && IsDetail(line)
  {
    hide Inside, IsDetail, PositionLines;
    if ps != [] {
      var n := |ps| - 1;
      PositionsInside(f, ps[..n]);
      PositionInside(f, ps[n]);
    }
  }

  lemma PostingInside(f: Field, p: Posting)
    ensures forall line <- PostingLines(f, p) :: Inside(line)
  {
    hide Inside, IsDetail, PositionsLines;
    InsideNumber(FIELDS_DOC, p.doc);
    InsideNumber(FIELDS_FREQ, p.freq);
    PositionsInside(f, p.positions);
  }

  lemma {:induction false} PostingsInside(f: Field, ps: seq<Posting>)
    ensures forall line <- PostingsLines(f, ps) :: Inside(line)
  {
    hide Inside, PostingLines;
    if ps != [] {
      var n := |ps| - 1;
      PostingsInside(f, ps[..n]);
      PostingInside(f, ps[n]);
    }
  }

  lemma TermInside(f: Field, t: Term)
    ensures forall line <- TermLines(f, t) :: Inside(line)
  {
    hide Inside, PostingsLines;
    InsideLabel(FIELDS_TERM, t.text);
    InsideLabel(SKIP_LIST, "");
    assert SKIP_LIST + "" == SKIP_LIST;
    PostingsInside(f, t.postings);
  }

  lemma {:induction false} TermsInside(f: Field, ts: seq<Term>)
    ensures forall line <- TermsLines(f, ts) :: Inside(line)
  {
    hide Inside, TermLines;
    if ts != [] {
      var n := |ts| - 1;
      TermsInside(f, ts[..n]);
      TermInside(f, ts[n]);
    }
  }

  // The fields of a file

  /** The table of fields after scanning some lines. */
  function FieldTable(lines: seq<string>, pos: nat): map<string, nat> {
    if lines == [] then map[]
    else
      var table, line := FieldTable(lines[..|lines| - 1], pos), lines[|lines| - 1];
      if HasPrefix(line, FIELDS_FIELD) then table[line[|FIELDS_FIELD|..] := pos + |Print(lines)|] else table
  }

  lemma {:induction false} TableConcat(a: seq<string>, b: seq<string>, pos: nat)
    ensures FieldTable(a + b, pos) == FieldTable(a, pos) + FieldTable(b, pos + |Print(a)|)
  {
    hide HasPrefix, Print;
    PrintConcat(a, b);
    if b == [] {
      assert a + b == a;
    } else {
      var n := |b| - 1;
      TableConcat(a, b[..n], pos);
      assert (a + b)[..|a + b| - 1] == a + b[..n];
    }
  }

  lemma {:induction false} NoFields(lines: seq<string>, pos: nat)
    requires forall line <- lines :: Inside(line)
    ensures FieldTable(lines, pos) == map[]
  {
    if lines != [] {
      var n := |lines| - 1;
      assert lines[n] in lines;
      InsideIsInside(lines[n]);
      NoFields(lines[..n], pos);
    }
  }

  function TermsStart(f: Field, pos: nat): nat {
    pos + |Line(FIELDS_FIELD + f.name)|
  }

  lemma OneField(f: Field, pos: nat)
    ensures FieldTable(FieldLines(f), pos) == if Inhabited(f.terms) then map[f.name := TermsStart(f, pos)] else map[]
  {
    hide FieldTable, Inside;
    TermsInside(f, f.terms);
    var head := HeadLines(f, Inhabited(f.terms));
    TableConcat(head, TermsLines(f, f.terms), pos);
    NoFields(TermsLines(f, f.terms), pos + |Print(head)|);
    HeadTable(f, Inhabited(f.terms), pos);
  }

  lemma HeadTable(f: Field, named: bool, pos: nat)
    ensures FieldTable(HeadLines(f, named), pos) == if named then map[f.name := TermsStart(f, pos)] else map[]
  {
    var line := FIELDS_FIELD + f.name;
    OwnLabel(FIELDS_FIELD, f.name);
    PrintOne(line);
    assert [line][..0] == [];
    assert FieldTable([line][..0], pos) == map[];
  }

  ghost function FieldPos(fs: seq<Field>, m: nat): nat
    requires m <= |fs|
  {
    |Print(FieldsLines(fs[..m]))|
  }

  ghost predicate DistinctFields(fs: seq<Field>) {
    forall i, j | 0 <= i < j < |fs| :: fs[i].name != fs[j].name
  }

  /** The table names exactly the fields with documents, each with the position
      where its terms start. */
  ghost predicate FieldsRight(fs: seq<Field>, n: nat, table: map<string, nat>)
    requires n <= |fs|
  {
    && (forall m | 0 <= m < n && Inhabited(fs[m].terms) ::
          fs[m].name in table && table[fs[m].name] == TermsStart(fs[m], FieldPos(fs, m)))
    && (forall name <- table :: exists m :: 0 <= m < n && Inhabited(fs[m].terms) && fs[m].name == name)
  }

  lemma {:induction false} FieldsRecovered(fs: seq<Field>, n: nat)
    requires DistinctFields(fs) && n <= |fs|
    ensures FieldsRight(fs, n, FieldTable(FieldsLines(fs[..n]), 0))
  {
    hide FieldTable, Print, FieldLines, FieldsRight, TermsStart;
    if n == 0 {
      NoFieldsYet(fs);
    } else {
      FieldsRecovered(fs, n - 1);
      assert fs[..n][..n - 1] == fs[..n - 1];
      TableConcat(FieldsLines(fs[..n - 1]), FieldLines(fs[n - 1]), 0);
      OneField(fs[n - 1], FieldPos(fs, n - 1));
      OneFieldMore(fs, n - 1, FieldTable(FieldsLines(fs[..n - 1]), 0));
    }
  }

  lemma NoFieldsYet(fs: seq<Field>)
    ensures FieldsRight(fs, 0, FieldTable(FieldsLines(fs[..0]), 0))
  {
    assert fs[..0] == [];
  }

  lemma OneFieldMore(fs: seq<Field>, n: nat, table: map<string, nat>)
    requires DistinctFields(fs) && n < |fs| && FieldsRight(fs, n, table)
    ensures FieldsRight(fs, n + 1, table + if Inhabited(fs[n].terms)
                                           then map[fs[n].name := TermsStart(fs[n], FieldPos(fs, n))]
                                           else map[])
  {
    hide Inhabited, FieldPos, TermsStart;
    var table' := table
      + (if Inhabited(fs[n].terms) then map[fs[n].name := TermsStart(fs[n], FieldPos(fs, n))] else map[]);
    forall name <- table' ensures exists m :: 0 <= m < n + 1 && Inhabited(fs[m].terms) && fs[m].name == name {
      if name in table && name != fs[n].name {
        var m :| 0 <= m < n && Inhabited(fs[m].terms) && fs[m].name == name;
      }
    }
  }

  /** No line before the last two ends the file. */
  lemma {:induction false} FieldsDoNotEnd(fs: seq<Field>)
    ensures forall line <- FieldsLines(fs) :: line != FIELDS_END
  {
    if fs != [] {
      hide Inside, TermsLines;
      var n := |fs| - 1;
      FieldsDoNotEnd(fs[..n]);
      FieldDoesNotEnd(fs[n]);
    }
  }

  lemma FieldDoesNotEnd(f: Field)
    ensures forall line <- FieldLines(f) :: line != FIELDS_END
  {
    hide TagOf, TermsLines;
    TermsInside(f, f.terms);
    forall line <- TermsLines(f, f.terms) ensures line != FIELDS_END {
      InsideIsInside(line);
    }
    LabelOf(FIELDS_FIELD, f.name);
    LabelOf(FIELDS_END, "");
    assert FIELDS_END + "" == FIELDS_END;
  }

  // The lines around a field and around a term

  ghost function Ending(checksum: string): seq<string> {
    [FIELDS_END, CHECKSUM + checksum]
  }

  /** What follows the first m fields. */
  lemma {:induction false} FieldsSplit(fs: seq<Field>, m: nat)
    requires m <= |fs|
    ensures FieldsLines(fs) == FieldsLines(fs[..m]) + FieldsLines(fs[m..])
  {
    hide FieldLines;
    if m == |fs| {
      assert fs[..m] == fs && fs[m..] == [];
    } else {
      var n := |fs| - 1;
      FieldsSplit(fs[..n], m);
      assert fs[..n][..m] == fs[..m] && fs[..n][m..] == fs[m..n];
      assert fs[m..][..|fs| - 1 - m] == fs[m..n];
    }
  }

  lemma {:induction false} TermsSplit(f: Field, ts: seq<Term>, i: nat)
    requires i <= |ts|
    ensures TermsLines(f, ts) == TermsLines(f, ts[..i]) + TermsLines(f, ts[i..])
  {
    hide TermLines;
    if i == |ts| {
      assert ts[..i] == ts && ts[i..] == [];
    } else {
      var n := |ts| - 1;
      TermsSplit(f, ts[..n], i);
      assert ts[..n][..i] == ts[..i] && ts[..n][i..] == ts[i..n];
      assert ts[i..][..|ts| - 1 - i] == ts[i..n];
    }
  }

  lemma {:induction false} FirstOfFields(fs: seq<Field>)
    ensures FieldsLines(fs) != [] ==> HasPrefix(FieldsLines(fs)[0], FIELDS_FIELD)
  {
    if fs != [] {
      hide TermsLines, Inhabited;
      var n := |fs| - 1;
      FirstOfFields(fs[..n]);
      NoTermsNoLines(fs[n]);
      OwnLabel(FIELDS_FIELD, fs[n].name);
    }
  }

  lemma NoTermsNoLines(f: Field)
    ensures !Inhabited(f.terms) ==> TermsLines(f, f.terms) == []
  {
    if !Inhabited(f.terms) {
      EmptyTerms(f, f.terms);
    }
  }

  lemma {:induction false} EmptyTerms(f: Field, ts: seq<Term>)
    requires !Inhabited(ts)
    ensures TermsLines(f, ts) == []
  {
    if ts != [] {
      assert ts[|ts| - 1] in ts;
      EmptyTerms(f, ts[..|ts| - 1]);
    }
  }

  lemma {:induction false} FirstOfTerms(f: Field, ts: seq<Term>)
    ensures TermsLines(f, ts) != [] ==> HasPrefix(TermsLines(f, ts)[0], FIELDS_TERM)
  {
    if ts != [] {
      hide PostingsLines;
      var n := |ts| - 1;
      FirstOfTerms(f, ts[..n]);
      OwnLabel(FIELDS_TERM, ts[n].text);
    }
  }

  /** The lines of the m-th field, and that a line that ends it follows. */
  lemma FieldInFile(fs: seq<Field>, checksum: string, m: nat) returns (rest: seq<string>)
    requires m < |fs|
    ensures rest != [] && EndsField(rest[0])
    ensures FileLines(fs, checksum) ==
            FieldsLines(fs[..m]) + HeadLines(fs[m], Inhabited(fs[m].terms)) + TermsLines(fs[m], fs[m].terms) + rest
  {
    hide FieldsLines, TermsLines, Inhabited;
    FieldsSplit(fs, m);
    FieldsSplit(fs[m..], 1);
    assert fs[m..][..1] == [fs[m]] && fs[m..][1..] == fs[m + 1..];
    SingleField(fs[m]);
    rest := FieldsLines(fs[m + 1..]) + Ending(checksum);
    FirstOfFields(fs[m + 1..]);
    FourParts(FieldsLines(fs[..m]), HeadLines(fs[m], Inhabited(fs[m].terms)), TermsLines(fs[m], fs[m].terms),
              FieldsLines(fs[m + 1..]), Ending(checksum));
  }

  lemma SingleField(f: Field)
    ensures FieldsLines([f]) == FieldLines(f)
  {
    assert [f][..0] == [];
    assert FieldsLines([f][..0]) == [];
  }

  lemma FourParts(a: seq<string>, b: seq<string>, c: seq<string>, d: seq<string>, e: seq<string>)
    ensures a + ((b + c) + d) + e == a + b + c + (d + e)
  {
  }

  /** The lines of the i-th term of a field, and that a line that ends it follows. */
  lemma TermInField(f: Field, i: nat, rest: seq<string>) returns (tail: seq<string>)
    requires i < |f.terms| && f.terms[i].postings != [] && rest != [] && EndsField(rest[0])
    ensures tail != [] && EndsTerm(tail[0])
    ensures TermsLines(f, f.terms) + rest ==
            TermsLines(f, f.terms[..i]) + [FIELDS_TERM + f.terms[i].text] + PostingsLines(f, f.terms[i].postings) + tail
  {
    hide TermsLines, PostingsLines, TermLines;
    var ts, t := f.terms, f.terms[i];
    TermsSplit(f, ts, i);
    TermsSplit(f, ts[i..], 1);
    assert ts[i..][..1] == [t] && ts[i..][1..] == ts[i + 1..];
    SingleTerm(f, t);
    FirstOfTerms(f, ts[i + 1..]);
    var after := TermsLines(f, ts[i + 1..]) + rest;
    tail := SkipLines(|t.postings|) + after;
    EndIsEnd(rest[0]);
    assert SKIP_LIST + "" == SKIP_LIST;
    OwnLabel(SKIP_LIST, "");
    FiveParts(TermsLines(f, ts[..i]), [FIELDS_TERM + t.text], PostingsLines(f, t.postings), SkipLines(|t.postings|),
              TermsLines(f, ts[i + 1..]), rest);
  }

  lemma EndIsEnd(line: string)
    requires EndsField(line)
    ensures EndsTerm(line)
  {
    OwnLabel(FIELDS_END, "");
    assert FIELDS_END + "" == FIELDS_END;
  }

  lemma SingleTerm(f: Field, t: Term)
    requires t.postings != []
    ensures TermsLines(f, [t]) == [FIELDS_TERM + t.text] + PostingsLines(f, t.postings) + SkipLines(|t.postings|)
  {
    assert [t][..0] == [];
    assert TermsLines(f, [t][..0]) == [];
  }

  lemma FiveParts(a: seq<string>, b: seq<string>, c: seq<string>, d: seq<string>, e: seq<string>, g: seq<string>)
    ensures a + ((b + c + d) + e) + g == a + b + c + (d + (e + g))
  {
  }
}
