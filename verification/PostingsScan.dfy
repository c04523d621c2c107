/** What scanning the lines of a postings file yields (codecs/simpletext/fieldsreader.go). */
module PostingsScan {
  import opened Bytes
  import opened Text
  import opened Numerals
  import opened PostingsText

  // The state of loadTerms

  datatype Output = Output(docsStart: int, skipPointer: int, docFreq: int, totalTermFreq: int)

  datatype Load = Load(lastDocsStart: int, lastTerm: string, docFreq: int, totalTermFreq: int, skipPointer: int,
                       visited: set<int>, sumTotalTermFreq: int, sumDocFreq: int, termCount: int,
                       table: map<string, Output>)

  function Unloaded(): Load {
    Load(-1, "", 0, 0, 0, {}, 0, 0, 0, map[])
  }

  function NumberAfter(line: string, tag: string): int
    requires HasPrefix(line, tag)
  {
    match Atoi(line[|tag|..])
    case Some(n) => n
    case None => 0
  }

  /** The term read last goes into the table. */
  function Flush(l: Load): Load {
    if l.lastDocsStart == -1 then l
    else l.(table := l.table[l.lastTerm := Output(l.lastDocsStart, l.skipPointer, l.docFreq, l.totalTermFreq)])
  }

  /** One line of a field; `after` is the position behind it. */
  function Feed(l: Load, line: string, after: nat): Load {
    if HasPrefix(line, FIELDS_DOC) then
      l.(docFreq := l.docFreq + 1, sumDocFreq := l.sumDocFreq + 1, totalTermFreq := l.totalTermFreq + 1,
         visited := l.visited + {NumberAfter(line, FIELDS_DOC)})
    else if HasPrefix(line, FIELDS_FREQ) then
      l.(totalTermFreq := l.totalTermFreq + NumberAfter(line, FIELDS_FREQ) - 1)
    else if HasPrefix(line, SKIP_LIST) then l.(skipPointer := after)
    else if HasPrefix(line, FIELDS_TERM) then
      Flush(l).(lastDocsStart := after, lastTerm := line[|FIELDS_TERM|..], docFreq := 0,
                sumTotalTermFreq := l.sumTotalTermFreq + l.totalTermFreq, totalTermFreq := 0,
                termCount := l.termCount + 1, skipPointer := 0)
    else l
  }

  /** Lines that stand from `pos` on. */
  function FeedAll(l: Load, lines: seq<string>, pos: nat): Load {
    if lines == [] then l
    else Feed(FeedAll(l, lines[..|lines| - 1], pos), lines[|lines| - 1], pos + |Print(lines)|)
  }

  /** At the end of the field. */
  function Finished(l: Load): Load {
    if l.lastDocsStart == -1 then l else Flush(l).(sumTotalTermFreq := l.sumTotalTermFreq + l.totalTermFreq)
  }

  lemma {:induction false} FeedConcat(l: Load, a: seq<string>, b: seq<string>, pos: nat)
    ensures FeedAll(l, a + b, pos) == FeedAll(FeedAll(l, a, pos), b, pos + |Print(a)|)
  {
    hide Feed, Print;
    PrintConcat(a, b);
    if b == [] {
      assert a + b == a;
    } else {
      var n := |b| - 1;
      FeedConcat(l, a, b[..n], pos);
      assert (a + b)[..|a + b| - 1] == a + b[..n];
    }
  }

  lemma FeedNothing(l: Load, pos: nat)
    ensures FeedAll(l, [], pos) == l
  {
  }

  lemma FeedOne(l: Load, line: string, pos: nat)
    ensures FeedAll(l, [line], pos) == Feed(l, line, pos + |Line(line)|)
  {
    PrintOne(line);
    assert [line][..0] == [];
    assert FeedAll(l, [line][..0], pos) == l;
  }

  /** Positions, offsets and payloads are passed over. */
  predicate Ignored(line: string) {
    var tag := TagOf(line);
    tag == IsPos || tag == IsStart || tag == IsEndOffset || tag == IsPayload
  }

  lemma {:induction false} FeedIgnored(l: Load, lines: seq<string>, pos: nat)
    requires forall line <- lines :: Ignored(line)
    ensures FeedAll(l, lines, pos) == l
  {
    if lines != [] {
      var n := |lines| - 1;
      assert lines[n] in lines;
      OneLabel(lines[n]);
      FeedIgnored(l, lines[..n], pos);
    }
  }

  lemma LabelOf(tag: string, rest: string)
    ensures tag == FIELDS_FIELD ==> TagOf(tag + rest) == IsField
    ensures tag == FIELDS_TERM ==> TagOf(tag + rest) == IsTerm
    ensures tag == FIELDS_DOC ==> TagOf(tag + rest) == IsDoc
    ensures tag == FIELDS_FREQ ==> TagOf(tag + rest) == IsFreq
    ensures tag == FIELDS_POS ==> TagOf(tag + rest) == IsPos
    ensures tag == FIELDS_START_OFFSET ==> TagOf(tag + rest) == IsStart
    ensures tag == FIELDS_END_OFFSET ==> TagOf(tag + rest) == IsEndOffset
    ensures tag == FIELDS_PAYLOAD ==> TagOf(tag + rest) == IsPayload
    ensures tag == SKIP_LIST ==> TagOf(tag + rest) == IsSkip
    ensures tag == FIELDS_END ==> TagOf(tag + rest) == IsEnd
  {
    hide TagOf;
    OwnLabel(tag, rest);
    OneLabel(tag + rest);
  }

  lemma {:induction false} PositionsIgnored(f: Field, ps: seq<Position>)
    ensures forall line <- PositionsLines(f, ps) :: Ignored(line)
  {
    if ps != [] {
      var n := |ps| - 1;
      PositionsIgnored(f, ps[..n]);
      PositionIgnored(f, ps[n]);
    }
  }

  lemma PositionIgnored(f: Field, p: Position)
    ensures forall line <- PositionLines(f, p) :: Ignored(line)
  {
    hide TagOf;
    LabelOf(FIELDS_POS, Itoa(p.pos));
    LabelOf(FIELDS_START_OFFSET, Itoa(p.startOffset));
    LabelOf(FIELDS_END_OFFSET, Itoa(p.endOffset));
    LabelOf(FIELDS_PAYLOAD, p.payload);
  }

  lemma NumberIs(tag: string, n: int)
    requires 0 <= n < 0x8000_0000
    ensures HasPrefix(tag + Itoa(n), tag) && Atoi((tag + Itoa(n))[|tag|..]) == Some(n)
    ensures NumberAfter(tag + Itoa(n), tag) == n
  {
    OwnLabel(tag, Itoa(n));
    Powers.LargePowers();
    ItoaRoundTrip(n, 64);
  }

  /** How often a term occurs in a document, as far as the field keeps it. */
  function Occurrences(f: Field, p: Posting): nat {
    if f.hasFreqs then p.freq else 1
  }

  function Occurring(f: Field, ps: seq<Posting>): nat {
    if ps == [] then 0 else Occurring(f, ps[..|ps| - 1]) + Occurrences(f, ps[|ps| - 1])
  }

  function DocsOf(ps: seq<Posting>): set<int> {
    set p | p in ps :: p.doc
  }

  ghost function WithPostings(l: Load, f: Field, ps: seq<Posting>): Load {
    l.(docFreq := l.docFreq + |ps|, sumDocFreq := l.sumDocFreq + |ps|,
       totalTermFreq := l.totalTermFreq + Occurring(f, ps), visited := l.visited + DocsOf(ps))
  }

  lemma FeedPosting(l: Load, f: Field, p: Posting, pos: nat)
    ensures FeedAll(l, PostingLines(f, p), pos) ==
            l.(docFreq := l.docFreq + 1, sumDocFreq := l.sumDocFreq + 1,
               totalTermFreq := l.totalTermFreq + Occurrences(f, p), visited := l.visited + {p.doc})
  {
    hide FeedAll, TagOf, Print;
    var line := FIELDS_DOC + Itoa(p.doc);
    FeedConcat(l, [line], DetailLines(f, p), pos);
    FeedOne(l, line, pos);
    NumberIs(FIELDS_DOC, p.doc);
    FeedDetails(Feed(l, line, pos + |Line(line)|), f, p, pos + |Print([line])|);
  }

  lemma FeedDetails(l: Load, f: Field, p: Posting, pos: nat)
    ensures FeedAll(l, DetailLines(f, p), pos) == l.(totalTermFreq := l.totalTermFreq + Occurrences(f, p) - 1)
  {
    hide FeedAll, TagOf, Print, PositionsLines, Itoa, Line, NumberAfter, Flush, Feed;
    FeedNothing(l, pos);
    if f.hasFreqs {
      var line := FIELDS_FREQ + Itoa(p.freq);
      var rest := if f.hasPositions then PositionsLines(f, p.positions) else [];
      FeedConcat(l, [line], rest, pos);
      FeedOne(l, line, pos);
      FeedFreq(l, p.freq, pos + |Line(line)|);
      PositionsIgnored(f, p.positions);
      FeedIgnored(Feed(l, line, pos + |Line(line)|), rest, pos + |Print([line])|);
    }
  }

  lemma FeedFreq(l: Load, freq: Freq, after: nat)
    ensures Feed(l, FIELDS_FREQ + Itoa(freq), after) == l.(totalTermFreq := l.totalTermFreq + freq - 1)
  {
    hide TagOf, Itoa;
    NumberIs(FIELDS_FREQ, freq);
    OneLabel(FIELDS_FREQ + Itoa(freq));
  }

  lemma {:induction false} FeedPostings(l: Load, f: Field, ps: seq<Posting>, pos: nat)
    ensures FeedAll(l, PostingsLines(f, ps), pos) == WithPostings(l, f, ps)
  {
    hide FeedAll, Print, PostingLines, Occurrences, WithPostings;
    if ps == [] {
      FeedNothing(l, pos);
      WithNone(l, f);
    } else {
      var n := |ps| - 1;
      FeedPostings(l, f, ps[..n], pos);
      FeedConcat(l, PostingsLines(f, ps[..n]), PostingLines(f, ps[n]), pos);
      FeedPosting(WithPostings(l, f, ps[..n]), f, ps[n], pos + |Print(PostingsLines(f, ps[..n]))|);
      WithOneMore(l, f, ps);
    }
  }

  lemma WithNone(l: Load, f: Field)
    ensures WithPostings(l, f, []) == l
  {
    assert DocsOf([]) == {};
  }

  lemma WithOneMore(l: Load, f: Field, ps: seq<Posting>)
    requires ps != []
    ensures var w, p := WithPostings(l, f, ps[..|ps| - 1]), ps[|ps| - 1];
            WithPostings(l, f, ps) ==
            w.(docFreq := w.docFreq + 1, sumDocFreq := w.sumDocFreq + 1,
               totalTermFreq := w.totalTermFreq + Occurrences(f, p), visited := w.visited + {p.doc})
  {
    var n := |ps| - 1;
    assert ps == ps[..n] + [ps[n]];
    assert DocsOf(ps) == DocsOf(ps[..n]) + {ps[n].doc};
  }

  // One term, and the terms of a field

  function DocsStart(t: Term, pos: nat): nat {
    pos + |Line(FIELDS_TERM + t.text)|
  }

  /** The position of the skip data of a term with a full block of documents: behind
      its label. */
  function SkipPointer(f: Field, t: Term, pos: nat): nat {
    if |t.postings| < BLOCK_SIZE then 0
    else DocsStart(t, pos) + |Print(PostingsLines(f, t.postings))| + |Line(SKIP_LIST)|
  }

  /** What the dictionary must say of a term whose lines start at `pos`. */
  function OutputOf(f: Field, t: Term, pos: nat): Output {
    Output(DocsStart(t, pos), SkipPointer(f, t, pos), |t.postings|, Occurring(f, t.postings))
  }

  lemma FeedTerm(l: Load, f: Field, t: Term, pos: nat)
    requires t.postings != [] && l.lastDocsStart >= -1
    ensures FeedAll(l, TermLines(f, t), pos) == WithTerm(l, f, t, pos)
  {
    hide FeedAll, Print, Line, PostingsLines, WithPostings, Feed, Occurring;
    var line := FIELDS_TERM + t.text;
    var head, ps, skip := [line], PostingsLines(f, t.postings), SkipLines(|t.postings|);
    PrintConcat(head, ps);
    PrintOne(line);
    FeedConcat(l, head + ps, skip, pos);
    FeedConcat(l, head, ps, pos);
    FeedOne(l, line, pos);
    FeedTermLine(l, t.text, DocsStart(t, pos));
    var l1 := Feed(l, line, pos + |Line(line)|);
    FeedPostings(l1, f, t.postings, DocsStart(t, pos));
    FeedSkip(WithPostings(l1, f, t.postings), |t.postings|, pos + |Print(head + ps)|);
    WithPostingsIs(l1, f, t.postings);
  }

  lemma WithPostingsIs(l: Load, f: Field, ps: seq<Posting>)
    ensures WithPostings(l, f, ps) ==
            l.(docFreq := l.docFreq + |ps|, sumDocFreq := l.sumDocFreq + |ps|,
               totalTermFreq := l.totalTermFreq + Occurring(f, ps), visited := l.visited + DocsOf(ps))
  {
  }

  lemma FeedTermLine(l: Load, text: string, after: nat)
    ensures Feed(l, FIELDS_TERM + text, after) == AtTerm(l, text, after)
  {
    hide TagOf, Flush;
    OwnLabel(FIELDS_TERM, text);
    OneLabel(FIELDS_TERM + text);
  }

  function AtTerm(l: Load, text: string, after: nat): Load {
    Flush(l).(lastDocsStart := after, lastTerm := text, docFreq := 0,
              sumTotalTermFreq := l.sumTotalTermFreq + l.totalTermFreq, totalTermFreq := 0,
              termCount := l.termCount + 1, skipPointer := 0)
  }

  /** The state behind the lines of one more term. */
  ghost function WithTerm(l: Load, f: Field, t: Term, pos: nat): Load {
    var m := AtTerm(l, t.text, DocsStart(t, pos));
    m.(docFreq := |t.postings|, sumDocFreq := l.sumDocFreq + |t.postings|,
       totalTermFreq := Occurring(f, t.postings), visited := l.visited + DocsOf(t.postings),
       skipPointer := SkipPointer(f, t, pos))
  }

  lemma FeedSkip(l: Load, n: nat, pos: nat)
    ensures FeedAll(l, SkipLines(n), pos) == if n >= BLOCK_SIZE then l.(skipPointer := pos + |Line(SKIP_LIST)|) else l
  {
    if n >= BLOCK_SIZE {
      hide FeedAll;
      FeedOne(l, SKIP_LIST, pos);
      assert SKIP_LIST + "" == SKIP_LIST;
      OwnLabel(SKIP_LIST, "");
      OneLabel(SKIP_LIST);
    }
  }

  /** The state behind the lines of some terms of a field. */
  ghost function Loaded(f: Field, ts: seq<Term>, pos: nat): Load {
    FeedAll(Unloaded(), TermsLines(f, ts), pos)
  }

  ghost function TermPos(f: Field, ts: seq<Term>, i: nat, pos: nat): nat
    requires i <= |ts|
  {
    pos + |Print(TermsLines(f, ts[..i]))|
  }

  lemma LoadedNext(f: Field, ts: seq<Term>, n: nat, pos: nat)
    requires n < |ts|
    ensures Loaded(f, ts[..n + 1], pos) ==
            FeedAll(Loaded(f, ts[..n], pos), TermLines(f, ts[n]), TermPos(f, ts, n, pos))
  {
    hide FeedAll, Print, TermLines;
    assert ts[..n + 1][..n] == ts[..n];
    FeedConcat(Unloaded(), TermsLines(f, ts[..n]), TermLines(f, ts[n]), pos);
  }

  // Sums over the terms

  function DocFreqs(ts: seq<Term>): nat {
    if ts == [] then 0 else DocFreqs(ts[..|ts| - 1]) + |ts[|ts| - 1].postings|
  }

  function TotalFreqs(f: Field, ts: seq<Term>): nat {
    if ts == [] then 0 else TotalFreqs(f, ts[..|ts| - 1]) + Occurring(f, ts[|ts| - 1].postings)
  }

  function AllDocs(ts: seq<Term>): set<int> {
    if ts == [] then {} else AllDocs(ts[..|ts| - 1]) + DocsOf(ts[|ts| - 1].postings)
  }

  function InhabitedCount(ts: seq<Term>): nat {
    if ts == [] then 0 else InhabitedCount(ts[..|ts| - 1]) + (if ts[|ts| - 1].postings != [] then 1 else 0)
  }

  /** The dictionary is right for the first n terms: it names exactly those with
      documents, and each with its own numbers. */
  ghost predicate TableRight(f: Field, ts: seq<Term>, n: nat, pos: nat, table: map<string, Output>)
    requires n <= |ts|
  {
    && (forall i | 0 <= i < n && ts[i].postings != [] ::
          ts[i].text in table && table[ts[i].text] == OutputOf(f, ts[i], TermPos(f, ts, i, pos)))
    && (forall text <- table :: exists i :: 0 <= i < n && ts[i].postings != [] && ts[i].text == text)
  }

  /** The terms of a field differ. */
  ghost predicate Distinct(ts: seq<Term>) {
    forall i, j | 0 <= i < j < |ts| :: ts[i].text != ts[j].text
  }

  /** What is known once the lines of the first n terms have been scanned. */
  ghost predicate Recovered(f: Field, ts: seq<Term>, n: nat, pos: nat, m: Load)
    requires n <= |ts|
  {
    && TableRight(f, ts, n, pos, m.table)
    && m.sumDocFreq == DocFreqs(ts[..n]) && m.sumTotalTermFreq == TotalFreqs(f, ts[..n])
    && m.visited == AllDocs(ts[..n]) && m.termCount == InhabitedCount(ts[..n])
  }

  /** Scanning the lines of a field recovers, of every term with documents, where
      they start, its document and total frequency and the end of its skip label,
      and of the field all sums. */
  lemma {:induction false} ScanRecovers(f: Field, ts: seq<Term>, n: nat, pos: nat)
    requires Distinct(ts) && n <= |ts|
    ensures Recovered(f, ts, n, pos, Finished(Loaded(f, ts[..n], pos)))
    ensures Loaded(f, ts[..n], pos) == Unloaded() || Loaded(f, ts[..n], pos).lastDocsStart >= 0
  {
    if n == 0 {
      assert ts[..0] == [];
    } else {
      hide Recovered, Finished, Unloaded;
      ScanRecovers(f, ts, n - 1, pos);
      ScanNext(f, ts, n - 1, pos);
    }
  }

  lemma ScanNext(f: Field, ts: seq<Term>, n: nat, pos: nat)
    requires Distinct(ts) && n < |ts|
    requires Recovered(f, ts, n, pos, Finished(Loaded(f, ts[..n], pos)))
    requires Loaded(f, ts[..n], pos) == Unloaded() || Loaded(f, ts[..n], pos).lastDocsStart >= 0
    ensures Recovered(f, ts, n + 1, pos, Finished(Loaded(f, ts[..n + 1], pos)))
    ensures Loaded(f, ts[..n + 1], pos) == Unloaded() || Loaded(f, ts[..n + 1], pos).lastDocsStart >= 0
  {
    hide FeedAll, Print, OutputOf, TermPos, Loaded, Recovered;
    var t, l := ts[n], Loaded(f, ts[..n], pos);
    LoadedNext(f, ts, n, pos);
    if t.postings == [] {
      FeedNothing(l, TermPos(f, ts, n, pos));
      RecoveredSame(f, ts, n, pos, Finished(l));
    } else {
      FeedTerm(l, f, t, TermPos(f, ts, n, pos));
      FinishedTerm(l, f, t, TermPos(f, ts, n, pos));
      RecoveredMore(f, ts, n, pos, Finished(l), Finished(WithTerm(l, f, t, TermPos(f, ts, n, pos))));
    }
  }

  lemma FinishedTerm(l: Load, f: Field, t: Term, pos: nat)
    requires l == Unloaded() || l.lastDocsStart >= 0
    ensures var m, d := Finished(WithTerm(l, f, t, pos)), Finished(l);
            && m.table == d.table[t.text := OutputOf(f, t, pos)]
            && m.sumDocFreq == d.sumDocFreq + |t.postings|
            && m.sumTotalTermFreq == d.sumTotalTermFreq + Occurring(f, t.postings)
            && m.visited == d.visited + DocsOf(t.postings) && m.termCount == d.termCount + 1
            && WithTerm(l, f, t, pos).lastDocsStart >= 0
  {
    hide Occurring, Line, Print, SkipPointer;
  }

  lemma Prefixes(f: Field, ts: seq<Term>, n: nat)
    requires n < |ts|
    ensures DocFreqs(ts[..n + 1]) == DocFreqs(ts[..n]) + |ts[n].postings|
    ensures TotalFreqs(f, ts[..n + 1]) == TotalFreqs(f, ts[..n]) + Occurring(f, ts[n].postings)
    ensures AllDocs(ts[..n + 1]) == AllDocs(ts[..n]) + DocsOf(ts[n].postings)
    ensures InhabitedCount(ts[..n + 1]) == InhabitedCount(ts[..n]) + (if ts[n].postings != [] then 1 else 0)
  {
    assert ts[..n + 1][..n] == ts[..n];
  }

  lemma RecoveredSame(f: Field, ts: seq<Term>, n: nat, pos: nat, m: Load)
    requires n < |ts| && ts[n].postings == [] && Recovered(f, ts, n, pos, m)
    ensures Recovered(f, ts, n + 1, pos, m)
  {
    hide OutputOf, TermPos, DocFreqs, TotalFreqs, AllDocs, InhabitedCount;
    Prefixes(f, ts, n);
    WithNone(m, f);
    assert DocsOf(ts[n].postings) == {};
    NoOccurring(f);
  }

  lemma NoOccurring(f: Field)
    ensures Occurring(f, []) == 0
  {
  }

  lemma RecoveredMore(f: Field, ts: seq<Term>, n: nat, pos: nat, d: Load, m: Load)
    requires Distinct(ts) && n < |ts| && ts[n].postings != [] && Recovered(f, ts, n, pos, d)
    requires m.table == d.table[ts[n].text := OutputOf(f, ts[n], TermPos(f, ts, n, pos))]
    requires m.sumDocFreq == d.sumDocFreq + |ts[n].postings|
    requires m.sumTotalTermFreq == d.sumTotalTermFreq + Occurring(f, ts[n].postings)
    requires m.visited == d.visited + DocsOf(ts[n].postings) && m.termCount == d.termCount + 1
    ensures Recovered(f, ts, n + 1, pos, m)
  {
    hide OutputOf, TermPos, DocFreqs, TotalFreqs, AllDocs, InhabitedCount, TableRight, Occurring;
    Prefixes(f, ts, n);
    NewEntry(f, ts, n, pos, d.table);
  }

  lemma NewEntry(f: Field, ts: seq<Term>, n: nat, pos: nat, table: map<string, Output>)
    requires Distinct(ts) && n < |ts| && ts[n].postings != [] && TableRight(f, ts, n, pos, table)
    ensures TableRight(f, ts, n + 1, pos, table[ts[n].text := OutputOf(f, ts[n], TermPos(f, ts, n, pos))])
  {
    hide OutputOf, TermPos;
    var table' := table[ts[n].text := OutputOf(f, ts[n], TermPos(f, ts, n, pos))];
    forall text <- table' ensures exists i :: 0 <= i < n + 1 && ts[i].postings != [] && ts[i].text == text {
      if text != ts[n].text {
        var i :| 0 <= i < n && ts[i].postings != [] && ts[i].text == text;
      }
    }
  }
}
