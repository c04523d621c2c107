/** What the lines of a postings file say (codecs/simpletext/fieldswriter.go), whoever reads
    them: every label opens an entry or completes the one that was opened last. */
module PostingsMeaning {
  import opened Text
  import opened Numerals
  import opened PostingsText
  import opened PostingsScan
  import opened PostingsFile

  datatype PositionRead = PositionRead(pos: int, startOffset: int, endOffset: int, payload: string)

  datatype PostingRead = PostingRead(doc: int, freq: int, positions: seq<PositionRead>)

  datatype TermRead = TermRead(text: string, postings: seq<PostingRead>)

  datatype FieldRead = FieldRead(name: string, terms: seq<TermRead>)

  // Line by line

  function OnPosition(p: PositionRead, line: string): PositionRead {
    if HasPrefix(line, FIELDS_START_OFFSET) then p.(startOffset := NumberAfter(line, FIELDS_START_OFFSET))
    else if HasPrefix(line, FIELDS_END_OFFSET) then p.(endOffset := NumberAfter(line, FIELDS_END_OFFSET))
    else if HasPrefix(line, FIELDS_PAYLOAD) then p.(payload := line[|FIELDS_PAYLOAD|..])
    else p
  }

  function OnPositions(ps: seq<PositionRead>, line: string): seq<PositionRead> {
    if HasPrefix(line, FIELDS_POS) then ps + [PositionRead(NumberAfter(line, FIELDS_POS), -1, -1, "")]
    else if ps == [] then ps
    else ps[..|ps| - 1] + [OnPosition(ps[|ps| - 1], line)]
  }

  function OnPosting(p: PostingRead, line: string): PostingRead {
    if HasPrefix(line, FIELDS_FREQ) then p.(freq := NumberAfter(line, FIELDS_FREQ))
    else p.(positions := OnPositions(p.positions, line))
  }

  function OnPostings(ps: seq<PostingRead>, line: string): seq<PostingRead> {
    if HasPrefix(line, FIELDS_DOC) then ps + [PostingRead(NumberAfter(line, FIELDS_DOC), -1, [])]
    else if ps == [] then ps
    else ps[..|ps| - 1] + [OnPosting(ps[|ps| - 1], line)]
  }

  function OnTerms(ts: seq<TermRead>, line: string): seq<TermRead> {
    if HasPrefix(line, FIELDS_TERM) then ts + [TermRead(line[|FIELDS_TERM|..], [])]
    else if ts == [] then ts
    else
      var t := ts[|ts| - 1];
      ts[..|ts| - 1] + [t.(postings := OnPostings(t.postings, line))]
  }

  function OnFields(fs: seq<FieldRead>, line: string): seq<FieldRead> {
    if HasPrefix(line, FIELDS_FIELD) then fs + [FieldRead(line[|FIELDS_FIELD|..], [])]
    else if fs == [] then fs
    else
      var f := fs[|fs| - 1];
      fs[..|fs| - 1] + [f.(terms := OnTerms(f.terms, line))]
  }

  function ReadPositions(ps: seq<PositionRead>, lines: seq<string>): seq<PositionRead> {
    if lines == [] then ps else OnPositions(ReadPositions(ps, lines[..|lines| - 1]), lines[|lines| - 1])
  }

  function ReadPostings(ps: seq<PostingRead>, lines: seq<string>): seq<PostingRead> {
    if lines == [] then ps else OnPostings(ReadPostings(ps, lines[..|lines| - 1]), lines[|lines| - 1])
  }

  function ReadTerms(ts: seq<TermRead>, lines: seq<string>): seq<TermRead> {
    if lines == [] then ts else OnTerms(ReadTerms(ts, lines[..|lines| - 1]), lines[|lines| - 1])
  }

  function ReadFields(fs: seq<FieldRead>, lines: seq<string>): seq<FieldRead> {
    if lines == [] then fs else OnFields(ReadFields(fs, lines[..|lines| - 1]), lines[|lines| - 1])
  }

  // What a field keeps

  function KeptPosition(f: Field, p: Position): PositionRead {
    PositionRead(p.pos, if f.hasOffsets then p.startOffset else -1, if f.hasOffsets then p.endOffset else -1,
                 p.payload)
  }

  function KeptPositions(f: Field, ps: seq<Position>): seq<PositionRead> {
    seq(|ps|, i requires 0 <= i < |ps| => KeptPosition(f, ps[i]))
  }

  function KeptPosting(f: Field, p: Posting): PostingRead {
    PostingRead(p.doc, if f.hasFreqs then p.freq else -1,
                if f.hasFreqs && f.hasPositions then KeptPositions(f, p.positions) else [])
  }

  function KeptPostings(f: Field, ps: seq<Posting>): seq<PostingRead> {
    seq(|ps|, i requires 0 <= i < |ps| => KeptPosting(f, ps[i]))
  }

  /** Terms without documents and fields without such terms are not in the file. */
  function KeptTerms(f: Field, ts: seq<Term>): seq<TermRead> {
    if ts == [] then []
    else
      var t := ts[|ts| - 1];
      KeptTerms(f, ts[..|ts| - 1]) + if t.postings == [] then [] else [TermRead(t.text, KeptPostings(f, t.postings))]
  }

  function KeptFields(fs: seq<Field>): seq<FieldRead> {
    if fs == [] then []
    else
      var f := fs[|fs| - 1];
      KeptFields(fs[..|fs| - 1]) + if Inhabited(f.terms) then [FieldRead(f.name, KeptTerms(f, f.terms))] else []
  }

  // Concatenation

  lemma {:induction false} PositionsConcat(ps: seq<PositionRead>, a: seq<string>, b: seq<string>)
    ensures ReadPositions(ps, a + b) == ReadPositions(ReadPositions(ps, a), b)
  {
    hide OnPositions;
    if b == [] {
      assert a + b == a;
    } else {
      PositionsConcat(ps, a, b[..|b| - 1]);
      assert (a + b)[..|a + b| - 1] == a + b[..|b| - 1];
    }
  }

  lemma {:induction false} PostingsConcat(ps: seq<PostingRead>, a: seq<string>, b: seq<string>)
    ensures ReadPostings(ps, a + b) == ReadPostings(ReadPostings(ps, a), b)
  {
    hide OnPostings;
    if b == [] {
      assert a + b == a;
    } else {
      PostingsConcat(ps, a, b[..|b| - 1]);
      assert (a + b)[..|a + b| - 1] == a + b[..|b| - 1];
    }
  }

  lemma {:induction false} TermsConcat(ts: seq<TermRead>, a: seq<string>, b: seq<string>)
    ensures ReadTerms(ts, a + b) == ReadTerms(ReadTerms(ts, a), b)
  {
    hide OnTerms;
    if b == [] {
      assert a + b == a;
    } else {
      TermsConcat(ts, a, b[..|b| - 1]);
      assert (a + b)[..|a + b| - 1] == a + b[..|b| - 1];
    }
  }

  lemma {:induction false} FieldsConcat(fs: seq<FieldRead>, a: seq<string>, b: seq<string>)
    ensures ReadFields(fs, a + b) == ReadFields(ReadFields(fs, a), b)
  {
    hide OnFields;
    if b == [] {
      assert a + b == a;
    } else {
      FieldsConcat(fs, a, b[..|b| - 1]);
      assert (a + b)[..|a + b| - 1] == a + b[..|b| - 1];
    }
  }

  lemma OneLine(ps: seq<PositionRead>, qs: seq<PostingRead>, ts: seq<TermRead>, fs: seq<FieldRead>, line: string)
    ensures ReadPositions(ps, [line]) == OnPositions(ps, line) && ReadPostings(qs, [line]) == OnPostings(qs, line)
    ensures ReadTerms(ts, [line]) == OnTerms(ts, line) && ReadFields(fs, [line]) == OnFields(fs, line)
  {
    hide OnPositions, OnPostings, OnTerms, OnFields;
    assert [line][..0] == [];
    assert ReadPositions(ps, [line][..0]) == ps && ReadPostings(qs, [line][..0]) == qs;
    assert ReadTerms(ts, [line][..0]) == ts && ReadFields(fs, [line][..0]) == fs;
  }

  // Lines that complete what is open

  /** Lines of positions. */
  ghost predicate Details(lines: seq<string>) {
    forall line <- lines :: Ignored(line)
  }

  /** Lines below a term. */
  ghost predicate BelowTerm(lines: seq<string>) {
    forall line <- lines :: TagOf(line) != IsTerm && TagOf(line) != IsField
  }

  ghost predicate BelowField(lines: seq<string>) {
    forall line <- lines :: TagOf(line) != IsField
  }

  lemma {:induction false} ReadInPosting(ps: seq<PostingRead>, p: PostingRead, lines: seq<string>)
    requires Details(lines)
    ensures ReadPostings(ps + [p], lines) == ps + [p.(positions := ReadPositions(p.positions, lines))]
  {
    hide TagOf, HasPrefix, OnPositions;
    if lines != [] {
      var n := |lines| - 1;
      assert lines[n] in lines;
      OneLabel(lines[n]);
      ReadInPosting(ps, p, lines[..n]);
    }
  }

  lemma {:induction false} ReadInTerm(ts: seq<TermRead>, t: TermRead, lines: seq<string>)
    requires BelowTerm(lines)
    ensures ReadTerms(ts + [t], lines) == ts + [t.(postings := ReadPostings(t.postings, lines))]
  {
    hide TagOf, HasPrefix, OnPostings;
    if lines != [] {
      var n := |lines| - 1;
      assert lines[n] in lines;
      OneLabel(lines[n]);
      ReadInTerm(ts, t, lines[..n]);
    }
  }

  lemma {:induction false} ReadInField(fs: seq<FieldRead>, f: FieldRead, lines: seq<string>)
    requires BelowField(lines)
    ensures ReadFields(fs + [f], lines) == fs + [f.(terms := ReadTerms(f.terms, lines))]
  {
    hide TagOf, HasPrefix, OnTerms;
    if lines != [] {
      var n := |lines| - 1;
      assert lines[n] in lines;
      OneLabel(lines[n]);
      ReadInField(fs, f, lines[..n]);
    }
  }

  // Positions

  lemma NumberBack(tag: string, n: Int64)
    ensures HasPrefix(tag + Itoa(n), tag) && NumberAfter(tag + Itoa(n), tag) == n
  {
    hide Itoa;
    OwnLabel(tag, Itoa(n));
    Powers.LargePowers();
    ItoaRoundTrip(n, 64);
  }

  lemma OpenPosition(ps: seq<PositionRead>, n: Int64)
    ensures ReadPositions(ps, [FIELDS_POS + Itoa(n)]) == ps + [PositionRead(n, -1, -1, "")]
  {
    hide Itoa, HasPrefix, NumberAfter;
    NumberBack(FIELDS_POS, n);
    OneLine(ps, [], [], [], FIELDS_POS + Itoa(n));
  }

  lemma OnStart(ps: seq<PositionRead>, p: PositionRead, n: Int64)
    ensures ReadPositions(ps + [p], [FIELDS_START_OFFSET + Itoa(n)]) == ps + [p.(startOffset := n)]
  {
    hide Itoa, HasPrefix, NumberAfter, TagOf;
    var line := FIELDS_START_OFFSET + Itoa(n);
    NumberBack(FIELDS_START_OFFSET, n);
    LabelOf(FIELDS_START_OFFSET, Itoa(n));
    OneLabel(line);
    OneLine(ps + [p], [], [], [], line);
  }

  lemma OnEnd(ps: seq<PositionRead>, p: PositionRead, n: Int64)
    ensures ReadPositions(ps + [p], [FIELDS_END_OFFSET + Itoa(n)]) == ps + [p.(endOffset := n)]
  {
    hide Itoa, HasPrefix, NumberAfter, TagOf;
    var line := FIELDS_END_OFFSET + Itoa(n);
    NumberBack(FIELDS_END_OFFSET, n);
    LabelOf(FIELDS_END_OFFSET, Itoa(n));
    OneLabel(line);
    OneLine(ps + [p], [], [], [], line);
  }

  lemma OnPayload(ps: seq<PositionRead>, p: PositionRead, payload: string)
    ensures ReadPositions(ps + [p], [FIELDS_PAYLOAD + payload]) == ps + [p.(payload := payload)]
  {
    hide HasPrefix, TagOf;
    var line := FIELDS_PAYLOAD + payload;
    OwnLabel(FIELDS_PAYLOAD, payload);
    LabelOf(FIELDS_PAYLOAD, payload);
    OneLabel(line);
    OneLine(ps + [p], [], [], [], line);
  }

  lemma OnePosition(f: Field, ps: seq<PositionRead>, p: Position)
    ensures ReadPositions(ps, PositionLines(f, p)) == ps + [KeptPosition(f, p)]
  {
    hide ReadPositions, Itoa;
    var a := [FIELDS_POS + Itoa(p.pos)];
    var b, c := [FIELDS_START_OFFSET + Itoa(p.startOffset)], [FIELDS_END_OFFSET + Itoa(p.endOffset)];
    var offsets := if f.hasOffsets then b + c else [];
    var payload := if p.payload != [] then [FIELDS_PAYLOAD + p.payload] else [];
    assert PositionLines(f, p) == a + offsets + payload;
    PositionsConcat(ps, a + offsets, payload);
    PositionsConcat(ps, a, offsets);
    var bare := PositionRead(p.pos, -1, -1, "");
    OpenPosition(ps, p.pos);
    if f.hasOffsets {
      PositionsConcat(ps + [bare], b, c);
      OnStart(ps, bare, p.startOffset);
      OnEnd(ps, bare.(startOffset := p.startOffset), p.endOffset);
    } else {
      NoLines(ps + [bare]);
    }
    var located := KeptPosition(f, p).(payload := "");
    assert ReadPositions(ps, a + offsets) == ps + [located];
    if p.payload != [] {
      OnPayload(ps, located, p.payload);
    } else {
      NoLines(ps + [located]);
    }
  }

  lemma NoLines(ps: seq<PositionRead>)
    ensures ReadPositions(ps, []) == ps
  {
  }

  /** The lines of positions say all that the field keeps of them, in order. */
  lemma {:induction false} PositionsSaid(f: Field, ps: seq<Position>)
    ensures ReadPositions([], PositionsLines(f, ps)) == KeptPositions(f, ps)
  {
    hide PositionLines, KeptPositions, ReadPositions;
    if ps == [] {
      NoLines([]);
      NothingKept(f);
    } else {
      var n := |ps| - 1;
      PositionsSaid(f, ps[..n]);
      PositionsConcat([], PositionsLines(f, ps[..n]), PositionLines(f, ps[n]));
      OnePosition(f, KeptPositions(f, ps[..n]), ps[n]);
      KeptNext(f, ps[..n], ps[n]);
      assert ps == ps[..n] + [ps[n]];
    }
  }

  lemma NothingKept(f: Field)
    ensures KeptPositions(f, []) == [] && KeptPostings(f, []) == []
  {
  }

  lemma KeptNext(f: Field, ps: seq<Position>, p: Position)
    ensures KeptPositions(f, ps + [p]) == KeptPositions(f, ps) + [KeptPosition(f, p)]
  {
  }

  // Lines that say nothing

  ghost predicate Silent(line: string) {
    var tag := TagOf(line);
    tag == IsSkip || tag == IsEnd || tag == NoTag
  }

  lemma SilentPositions(ps: seq<PositionRead>, line: string)
    requires Silent(line)
    ensures OnPositions(ps, line) == ps
  {
    hide TagOf, HasPrefix;
    OneLabel(line);
  }

  lemma SilentPostings(ps: seq<PostingRead>, line: string)
    requires Silent(line)
    ensures OnPostings(ps, line) == ps
  {
    hide TagOf, HasPrefix, OnPositions;
    OneLabel(line);
    if ps != [] {
      SilentPositions(ps[|ps| - 1].positions, line);
    }
  }

  lemma SilentTerms(ts: seq<TermRead>, line: string)
    requires Silent(line)
    ensures OnTerms(ts, line) == ts
  {
    hide TagOf, HasPrefix, OnPostings;
    OneLabel(line);
    if ts != [] {
      SilentPostings(ts[|ts| - 1].postings, line);
    }
  }

  lemma SilentFields(fs: seq<FieldRead>, line: string)
    requires Silent(line)
    ensures OnFields(fs, line) == fs
  {
    hide TagOf, HasPrefix, OnTerms;
    OneLabel(line);
    if fs != [] {
      SilentTerms(fs[|fs| - 1].terms, line);
    }
  }

  // Postings

  lemma OpenPosting(ps: seq<PostingRead>, n: Int64)
    ensures ReadPostings(ps, [FIELDS_DOC + Itoa(n)]) == ps + [PostingRead(n, -1, [])]
  {
    hide Itoa, HasPrefix, NumberAfter;
    NumberBack(FIELDS_DOC, n);
    OneLine([], ps, [], [], FIELDS_DOC + Itoa(n));
  }

  lemma OnFreq(ps: seq<PostingRead>, p: PostingRead, n: Int64)
    ensures ReadPostings(ps + [p], [FIELDS_FREQ + Itoa(n)]) == ps + [p.(freq := n)]
  {
    hide Itoa, HasPrefix, NumberAfter, TagOf;
    var line := FIELDS_FREQ + Itoa(n);
    NumberBack(FIELDS_FREQ, n);
    LabelOf(FIELDS_FREQ, Itoa(n));
    OneLabel(line);
    OneLine([], ps + [p], [], [], line);
  }

  lemma OnDetails(f: Field, ps: seq<PostingRead>, p: PostingRead, positions: seq<Position>)
    requires p.positions == []
    ensures ReadPostings(ps + [p], PositionsLines(f, positions)) ==
            ps + [p.(positions := KeptPositions(f, positions))]
  {
    PositionsIgnored(f, positions);
    ReadInPosting(ps, p, PositionsLines(f, positions));
    PositionsSaid(f, positions);
  }

  lemma OnePosting(f: Field, ps: seq<PostingRead>, p: Posting)
    ensures ReadPostings(ps, PostingLines(f, p)) == ps + [KeptPosting(f, p)]
  {
    hide ReadPostings, Itoa, PositionsLines, KeptPositions;
    var doc, freq := [FIELDS_DOC + Itoa(p.doc)], [FIELDS_FREQ + Itoa(p.freq)];
    var bare := PostingRead(p.doc, -1, []);
    OpenPosting(ps, p.doc);
    PostingsConcat(ps, doc, DetailLines(f, p));
    if !f.hasFreqs {
      NoPostingLines(ps + [bare]);
    } else {
      var positions := if f.hasPositions then PositionsLines(f, p.positions) else [];
      var counted := bare.(freq := p.freq);
      PostingsConcat(ps + [bare], freq, positions);
      OnFreq(ps, bare, p.freq);
      if f.hasPositions {
        OnDetails(f, ps, counted, p.positions);
      } else {
        NoPostingLines(ps + [counted]);
      }
    }
  }

  lemma NoPostingLines(ps: seq<PostingRead>)
    ensures ReadPostings(ps, []) == ps
  {
  }

  lemma {:induction false} PostingsSaid(f: Field, ps: seq<Posting>)
    ensures ReadPostings([], PostingsLines(f, ps)) == KeptPostings(f, ps)
  {
    hide PostingLines, KeptPostings, ReadPostings;
    if ps == [] {
      NoPostingLines([]);
      NothingKept(f);
    } else {
      var n := |ps| - 1;
      PostingsSaid(f, ps[..n]);
      PostingsConcat([], PostingsLines(f, ps[..n]), PostingLines(f, ps[n]));
      OnePosting(f, KeptPostings(f, ps[..n]), ps[n]);
      KeptPostingNext(f, ps[..n], ps[n]);
      assert ps == ps[..n] + [ps[n]];
    }
  }

  lemma KeptPostingNext(f: Field, ps: seq<Posting>, p: Posting)
    ensures KeptPostings(f, ps + [p]) == KeptPostings(f, ps) + [KeptPosting(f, p)]
  {
  }

  // Terms

  lemma PostingBelow(f: Field, p: Posting)
    ensures BelowTerm(PostingLines(f, p))
  {
    hide TagOf, Itoa, PositionsLines;
    LabelOf(FIELDS_DOC, Itoa(p.doc));
    LabelOf(FIELDS_FREQ, Itoa(p.freq));
    PositionsIgnored(f, p.positions);
  }

  lemma {:induction false} PostingsBelow(f: Field, ps: seq<Posting>)
    ensures BelowTerm(PostingsLines(f, ps))
  {
    if ps != [] {
      hide TagOf, PostingLines;
      var n := |ps| - 1;
      PostingsBelow(f, ps[..n]);
      PostingBelow(f, ps[n]);
    }
  }

  lemma SkipSilent(ps: seq<PostingRead>, n: nat)
    ensures BelowTerm(SkipLines(n)) && ReadPostings(ps, SkipLines(n)) == ps
  {
    if n >= BLOCK_SIZE {
      hide TagOf, OnPostings, OnPositions;
      LabelOf(SKIP_LIST, "");
      assert SKIP_LIST + "" == SKIP_LIST;
      SilentPostings(ps, SKIP_LIST);
      OneLine([], ps, [], [], SKIP_LIST);
    }
  }

  lemma OpenTerm(ts: seq<TermRead>, text: string)
    ensures ReadTerms(ts, [FIELDS_TERM + text]) == ts + [TermRead(text, [])]
  {
    OwnLabel(FIELDS_TERM, text);
    OneLine([], [], ts, [], FIELDS_TERM + text);
  }

  lemma OneTerm(f: Field, ts: seq<TermRead>, t: Term)
    requires t.postings != []
    ensures ReadTerms(ts, TermLines(f, t)) == ts + [TermRead(t.text, KeptPostings(f, t.postings))]
  {
    hide ReadTerms, ReadPostings, PostingsLines, SkipLines, KeptPostings, TagOf;
    var head, docs, skip := [FIELDS_TERM + t.text], PostingsLines(f, t.postings), SkipLines(|t.postings|);
    TermsConcat(ts, head + docs, skip);
    TermsConcat(ts, head, docs);
    OpenTerm(ts, t.text);
    PostingsBelow(f, t.postings);
    ReadInTerm(ts, TermRead(t.text, []), docs);
    PostingsSaid(f, t.postings);
    SkipSilent(KeptPostings(f, t.postings), |t.postings|);
    ReadInTerm(ts, TermRead(t.text, KeptPostings(f, t.postings)), skip);
  }

  lemma {:induction false} TermsSaid(f: Field, ts: seq<Term>)
    ensures ReadTerms([], TermsLines(f, ts)) == KeptTerms(f, ts)
  {
    if ts != [] {
      hide KeptPostings;
      var n := |ts| - 1;
      TermsSaid(f, ts[..n]);
      if ts[n].postings == [] {
        assert TermsLines(f, ts[..n]) + [] == TermsLines(f, ts[..n]);
        assert KeptTerms(f, ts[..n]) + [] == KeptTerms(f, ts[..n]);
      } else {
        hide TermLines;
        TermsConcat([], TermsLines(f, ts[..n]), TermLines(f, ts[n]));
        OneTerm(f, KeptTerms(f, ts[..n]), ts[n]);
      }
    }
  }

  // Fields

  lemma OpenField(fs: seq<FieldRead>, name: string)
    ensures ReadFields(fs, [FIELDS_FIELD + name]) == fs + [FieldRead(name, [])]
  {
    OwnLabel(FIELDS_FIELD, name);
    OneLine([], [], [], fs, FIELDS_FIELD + name);
  }

  lemma TermsBelow(f: Field, ts: seq<Term>)
    ensures BelowField(TermsLines(f, ts))
  {
    hide TagOf, TermsLines, NumbersParse;
    TermsInside(f, ts);
  }

  lemma OneField(fs: seq<FieldRead>, f: Field)
    requires Inhabited(f.terms)
    ensures ReadFields(fs, FieldLines(f)) == fs + [FieldRead(f.name, KeptTerms(f, f.terms))]
  {
    hide ReadFields, ReadTerms, TermsLines, KeptTerms, Inhabited, BelowField;
    FieldsConcat(fs, [FIELDS_FIELD + f.name], TermsLines(f, f.terms));
    OpenField(fs, f.name);
    TermsBelow(f, f.terms);
    ReadInField(fs, FieldRead(f.name, []), TermsLines(f, f.terms));
    TermsSaid(f, f.terms);
  }

  lemma {:induction false} NoTermLines(f: Field, ts: seq<Term>)
    requires !Inhabited(ts)
    ensures TermsLines(f, ts) == []
  {
    if ts != [] {
      var n := |ts| - 1;
      assert ts[n] in ts && forall t <- ts[..n] :: t in ts;
      NoTermLines(f, ts[..n]);
    }
  }

  lemma {:induction false} FieldsSaid(fs: seq<Field>)
    ensures ReadFields([], FieldsLines(fs)) == KeptFields(fs)
  {
    if fs != [] {
      hide KeptTerms, Inhabited, ReadFields, TermsLines;
      var n := |fs| - 1;
      FieldsSaid(fs[..n]);
      FieldsConcat([], FieldsLines(fs[..n]), FieldLines(fs[n]));
      if Inhabited(fs[n].terms) {
        OneField(KeptFields(fs[..n]), fs[n]);
      } else {
        NoTermLines(fs[n], fs[n].terms);
        NoFieldLines(KeptFields(fs[..n]));
        assert KeptFields(fs[..n]) + [] == KeptFields(fs[..n]);
      }
    } else {
      NoFieldLines([]);
    }
  }

  lemma NoFieldLines(fs: seq<FieldRead>)
    ensures ReadFields(fs, []) == fs
  {
  }

  lemma EndSilent(checksum: string)
    ensures Silent(FIELDS_END) && Silent(CHECKSUM + checksum)
  {
    assert CharAt(CHECKSUM + checksum, 0) == 'c' && CharAt(CHECKSUM + checksum, 2) == 'e';
    assert CharAt(CHECKSUM + checksum, 4) == 'k' && CharAt(CHECKSUM + checksum, 6) == 'u';
    assert CharAt(CHECKSUM + checksum, 8) == ' ';
  }

  /** The whole file says which fields there are, which terms have documents, and of each
      document what the field keeps: frequency, positions, offsets and payloads. */
  lemma FileSaid(fs: seq<Field>, checksum: string)
    ensures ReadFields([], FileLines(fs, checksum)) == KeptFields(fs)
  {
    hide ReadFields, FieldsLines, KeptFields, OnFields, Silent;
    FieldsSaid(fs);
    EndSilent(checksum);
    var kept := KeptFields(fs);
    FieldsConcat([], FieldsLines(fs), [FIELDS_END, CHECKSUM + checksum]);
    assert [FIELDS_END, CHECKSUM + checksum] == [FIELDS_END] + [CHECKSUM + checksum];
    FieldsConcat(kept, [FIELDS_END], [CHECKSUM + checksum]);
    OneLine([], [], [], kept, FIELDS_END);
    OneLine([], [], [], kept, CHECKSUM + checksum);
    SilentFields(kept, FIELDS_END);
    SilentFields(kept, CHECKSUM + checksum);
  }

  /** So two lists of fields print the same file only if the file keeps the same of them. */
  lemma SameFile(fs: seq<Field>, fs': seq<Field>, checksum: string, checksum': string)
    requires Print(FileLines(fs, checksum)) == Print(FileLines(fs', checksum'))
    ensures KeptFields(fs) == KeptFields(fs')
  {
    hide Print, FileLines, KeptFields;
    PrintInjective(FileLines(fs, checksum), FileLines(fs', checksum'));
    FileSaid(fs, checksum);
    FileSaid(fs', checksum');
  }
}
