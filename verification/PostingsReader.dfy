/** The text postings reader (codecs/simpletext/fieldsreader.go). */
module PostingsReader {
  import opened Bytes
  import opened Text
  import opened Numerals
  import opened PostingsText
  import opened PostingsScan
  import opened PostingsFile

  const NO_MORE_DOCS: int := 0x7fff_ffff

  /** From line k on come lines inside a field up to line e, which ends it. */
  ghost predicate FieldBody(lines: seq<string>, k: nat, e: nat) {
    && k <= e < |lines| && EndsField(lines[e])
    && forall i | k <= i < e :: Inside(lines[i])
  }

  // Fields

  /** readFields: the position behind every field line, up to the end line. */
  method ReadFields(input: IndexInput, ghost lines: seq<string>, ghost e: nat) returns (r: Option<map<string, nat>>)
    requires input.pos == 0
    modifies input
    ensures At(input.data, 0, Print(lines)) && e < |lines| && lines[e] == FIELDS_END
            && (forall i | 0 <= i < e :: lines[i] != FIELDS_END) ==>
              r == Some(FieldTable(lines[..e], 0))
  {
    hide Print, FieldTable, LineAt, At, Reading;
    ghost var good := At(input.data, 0, Print(lines)) && e < |lines| && lines[e] == FIELDS_END
                      && forall i | 0 <= i < e :: lines[i] != FIELDS_END;
    if good {
      StartReading(input.data, 0, lines);
      EmptyTable(lines);
    }
    var fields: map<string, nat> := map[];
    ghost var i := 0;
    while true
      invariant good ==> i <= e && Reading(input.data, 0, lines, input.pos, i) && fields == FieldTable(lines[..i], 0)
      decreases |input.data| - input.pos
    {
      if good {
        ReadingLine(input.data, 0, lines, input.pos, i);
      }
      var text := input.ReadLine();
      if text.None? {
        return None;
      }
      if text.value == FIELDS_END {
        return Some(fields);
      } else if HasPrefix(text.value, FIELDS_FIELD) {
        fields := fields[text.value[|FIELDS_FIELD|..] := input.pos];
      }
      if good {
        NextField(input.data, lines, i, input.pos);
      }
      i := i + 1;
    }
  }

  lemma EmptyTable(lines: seq<string>)
    ensures FieldTable(lines[..0], 0) == map[]
  {
  }

  lemma NextField(f: string, lines: seq<string>, i: nat, pos: nat)
    requires i < |lines| && Reading(f, 0, lines, pos, i + 1)
    ensures FieldTable(lines[..i + 1], 0) ==
            if HasPrefix(lines[i], FIELDS_FIELD) then FieldTable(lines[..i], 0)[lines[i][|FIELDS_FIELD|..] := pos]
            else FieldTable(lines[..i], 0)
  {
    assert lines[..i + 1][..i] == lines[..i];
  }

  // The terms of a field

  class SimpleTextTerms {
    var sumTotalTermFreq: int
    var sumDocFreq: int
    var docCount: int
    var termCount: int
    var dictionary: map<string, Output>   // stands for the transducer

    constructor ()
      ensures sumTotalTermFreq == sumDocFreq == docCount == termCount == 0 && dictionary == map[]
    {
      sumTotalTermFreq, sumDocFreq, docCount, termCount, dictionary := 0, 0, 0, 0, map[];
    }

    /** The object holds what the scan recovered. */
    ghost predicate Shows(l: Load)
      reads this
    {
      && sumTotalTermFreq == l.sumTotalTermFreq && sumDocFreq == l.sumDocFreq && docCount == |l.visited|
      && termCount == l.termCount && dictionary == l.table
    }

    /** loadTerms */
    method LoadTerms(input: IndexInput, termsStart: nat, ghost lines: seq<string>, ghost k: nat, ghost e: nat)
      returns (ok: bool)
      modifies this, input
      ensures Reading(input.data, 0, lines, termsStart, k) && FieldBody(lines, k, e) ==>
                ok && Shows(Finished(FeedAll(Unloaded(), lines[k..e], termsStart)))
    {
      hide Print, FeedAll, LineAt, At, Reading, Inside, Feed, FieldBody, Finished;
      ghost var good := Reading(input.data, 0, lines, termsStart, k) && FieldBody(lines, k, e);
      input.Seek(termsStart);
      var l := Unloaded();
      ghost var i := k;
      if good {
        FeedStart(l, lines, k, e, termsStart);
      }
      while true
        invariant good ==> k <= i <= e < |lines| && Reading(input.data, 0, lines, input.pos, i)
                           && l == FeedAll(Unloaded(), lines[k..i], termsStart)
        decreases |input.data| - input.pos
      {
        if good {
          ReadingLine(input.data, 0, lines, input.pos, i);
          WhichLine(lines, k, e, i);
        }
        var text := input.ReadLine();
        if text.None? {
          return false;
        }
        if text.value == FIELDS_END || HasPrefix(text.value, FIELDS_FIELD) {
          break;
        }
        var fed := FeedLine(l, text.value, input.pos);
        if fed.None? {
          return false;
        }
        if good {
          FeedNext(input.data, lines, k, i, termsStart, input.pos);
        }
        l := fed.value;
        i := i + 1;
      }
      l := Finished(l);
      sumTotalTermFreq, sumDocFreq, docCount := l.sumTotalTermFreq, l.sumDocFreq, |l.visited|;
      termCount, dictionary := l.termCount, l.table;
      return true;
    }
  }

  lemma WhichLine(lines: seq<string>, k: nat, e: nat, i: nat)
    requires FieldBody(lines, k, e) && k <= i <= e
    ensures EndsField(lines[i]) <==> i == e
    ensures i < e ==> NumbersParse(lines[i])
  {
    if i < e {
      InsideIsInside(lines[i]);
    }
  }

  lemma FeedStart(l: Load, lines: seq<string>, k: nat, e: nat, pos: nat)
    requires FieldBody(lines, k, e)
    ensures k <= e < |lines| && FeedAll(l, lines[k..k], pos) == l
  {
  }

  lemma FeedNext(f: string, lines: seq<string>, k: nat, i: nat, start: nat, pos: nat)
    requires k <= i < |lines| && Reading(f, 0, lines, start, k) && Reading(f, 0, lines, pos, i + 1)
    ensures FeedAll(Unloaded(), lines[k..i + 1], start) ==
            Feed(FeedAll(Unloaded(), lines[k..i], start), lines[i], pos)
  {
    hide Feed, Print, At;
    assert lines[k..i + 1][..i - k] == lines[k..i];
    PrintSlice(lines, k, i + 1);
  }

  lemma PrintSlice(lines: seq<string>, k: nat, i: nat)
    requires k <= i <= |lines|
    ensures |Print(lines[..i])| == |Print(lines[..k])| + |Print(lines[k..i])|
  {
    hide Print;
    PrintConcat(lines[..k], lines[k..i]);
    assert lines[..k] + lines[k..i] == lines[..i];
  }

  /** One line of loadTerms: a number that cannot be parsed is an error. */
  method FeedLine(l: Load, line: string, after: nat) returns (r: Option<Load>)
    ensures NumbersParse(line) ==> r == Some(Feed(l, line, after))
  {
    if HasPrefix(line, FIELDS_DOC) {
      var docID := Atoi(line[|FIELDS_DOC|..]);
      if docID.None? {
        return None;
      }
      return Some(l.(docFreq := l.docFreq + 1, sumDocFreq := l.sumDocFreq + 1, totalTermFreq := l.totalTermFreq + 1,
                     visited := l.visited + {docID.value}));
    } else if HasPrefix(line, FIELDS_FREQ) {
      var freq := Atoi(line[|FIELDS_FREQ|..]);
      if freq.None? {
        return None;
      }
      return Some(l.(totalTermFreq := l.totalTermFreq + freq.value - 1));
    } else if HasPrefix(line, SKIP_LIST) {
      return Some(l.(skipPointer := after));
    } else if HasPrefix(line, FIELDS_TERM) {
      return Some(Flush(l).(lastDocsStart := after, lastTerm := line[|FIELDS_TERM|..], docFreq := 0,
                            sumTotalTermFreq := l.sumTotalTermFreq + l.totalTermFreq, totalTermFreq := 0,
                            termCount := l.termCount + 1, skipPointer := 0));
    }
    return Some(l);
  }

  // The documents of a term

  /** At line k starts a posting, and behind it a line that ends it. */
  ghost predicate PostingAt(lines: seq<string>, k: nat, f: Field, p: Posting) {
    var n := |PostingLines(f, p)|;
    && k + n < |lines| && lines[k..k + n] == PostingLines(f, p)
    && (EndsTerm(lines[k + n]) || HasPrefix(lines[k + n], FIELDS_DOC))
  }

  class SimpleTextDocsEnum {
    const input: IndexInput
    const omitTF: bool
    var docID: int
    var tf: int

    /** Reset, on a new object: at the first document of a term. */
    constructor (input: IndexInput, fp: nat, omitTF: bool)
      modifies input
      ensures this.input == input && input.pos == fp && this.omitTF == omitTF && docID == -1 && tf == 1
    {
      this.input := input;
      this.omitTF := omitTF;
      docID, tf := -1, 1;
      new;
      input.Seek(fp);
    }

    /** readDoc: reads on to the line that ends the document, and stops before it;
        nothing at the end of the term. */
    method ReadDoc(ghost lines: seq<string>, ghost k: nat, ghost f: Field, ghost p: Posting, ghost good: bool,
                   ghost over: bool)
      returns (r: Option<int>)
      requires good || over ==> Reading(input.data, 0, lines, input.pos, k) && docID != NO_MORE_DOCS
      requires good ==> PostingAt(lines, k, f, p)
      requires over ==> k < |lines| && EndsTerm(lines[k])
      modifies this, input
      ensures good ==>
                r == Some(p.doc) && docID == p.doc && Reading(input.data, 0, lines, input.pos, k + |PostingLines(f, p)|)
      ensures good ==> tf == if omitTF then old(tf) else if f.hasFreqs then p.freq else 0
      ensures over ==> r == None && docID == NO_MORE_DOCS
      ensures r.Some? && old(docID) != NO_MORE_DOCS ==> old(input.pos) < input.pos <= |input.data|
    {
      hide Print, LineAt, At, Reading, PostingAt, PostingLines, TagOf, Atoi, HasPrefix;
      if docID == NO_MORE_DOCS {
        return Some(docID);
      }
      ghost var n := |PostingLines(f, p)|;
      var first := true;
      var termFreq := 0;
      ghost var i: nat := k;
      if good {
        PostingSize(lines, k, f, p);
      }
      while true
        invariant good ==> i <= k + n < |lines| && Reading(input.data, 0, lines, input.pos, i)
        invariant over ==> i == k && Reading(input.data, 0, lines, input.pos, i)
        invariant i >= k && (good || over ==> (first <==> i == k))
        invariant good && !first ==> docID == p.doc && termFreq == (if f.hasFreqs && i > k + 1 then p.freq else 0)
        invariant tf == old(tf) && old(input.pos) <= input.pos
        invariant !first ==> old(input.pos) < input.pos <= |input.data|
        decreases |input.data| - input.pos
      {
        var lineStart := input.pos;
        if good {
          ReadingLine(input.data, 0, lines, input.pos, i);
          PostingLineIs(lines, k, f, p, i);
        }
        if over {
          ReadingLine(input.data, 0, lines, input.pos, i);
        }
        var line := input.ReadLine();
        if line.None? {
          return None;
        }
        var text := line.value;
        OneLabel(text);
        if HasPrefix(text, FIELDS_DOC) {
          if !first {
            input.Seek(lineStart);
            if !omitTF {
              tf := termFreq;
            }
            return Some(docID);
          }
          var doc := Atoi(text[|FIELDS_DOC|..]);
          if doc.None? {
            return None;
          }
          docID := doc.value;
          termFreq := 0;
          first := false;
        } else if HasPrefix(text, FIELDS_FREQ) {
          var freq := Atoi(text[|FIELDS_FREQ|..]);
          if freq.None? {
            return None;
          }
          termFreq := freq.value;
        } else if HasPrefix(text, FIELDS_POS) || HasPrefix(text, FIELDS_START_OFFSET)
                  || HasPrefix(text, FIELDS_END_OFFSET) || HasPrefix(text, FIELDS_PAYLOAD) {
          // skip
        } else {
          if HasPrefix(text, SKIP_LIST) || HasPrefix(text, FIELDS_TERM) || HasPrefix(text, FIELDS_FIELD)
             || HasPrefix(text, FIELDS_END) {
            if !first {
              input.Seek(lineStart);
              if !omitTF {
                tf := termFreq;
              }
              return Some(docID);
            }
          }
          docID := NO_MORE_DOCS;
          return None;
        }
        i := i + 1;
      }
    }

    /** advanceTarget: one document is read, whether or not it reaches the target. */
    method AdvanceTarget(target: int, ghost lines: seq<string>, ghost k: nat, ghost f: Field, ghost p: Posting,
                         ghost good: bool)
      returns (r: Option<int>)
      requires good ==>
                Reading(input.data, 0, lines, input.pos, k) && PostingAt(lines, k, f, p) && docID != NO_MORE_DOCS
      modifies this, input
      ensures good ==> r == Some(p.doc) && Reading(input.data, 0, lines, input.pos, k + |PostingLines(f, p)|)
    {
      r := ReadDoc(lines, k, f, p, good, false);
    }
  }

  lemma PostingSize(lines: seq<string>, k: nat, f: Field, p: Posting)
    requires PostingAt(lines, k, f, p)
    ensures k + |PostingLines(f, p)| < |lines| && |PostingLines(f, p)| >= 1
  {
  }

  /** Line i of a posting: the document, then the frequency, then what is skipped. */
  lemma PostingLineIs(lines: seq<string>, k: nat, f: Field, p: Posting, i: nat)
    requires PostingAt(lines, k, f, p) && k <= i <= k + |PostingLines(f, p)|
    ensures i == k ==> HasPrefix(lines[i], FIELDS_DOC) && Atoi(lines[i][|FIELDS_DOC|..]) == Some(p.doc)
    ensures i == k + 1 && i < k + |PostingLines(f, p)| ==>
              f.hasFreqs && HasPrefix(lines[i], FIELDS_FREQ) && Atoi(lines[i][|FIELDS_FREQ|..]) == Some(p.freq)
    ensures k + 1 < i < k + |PostingLines(f, p)| ==> IsDetail(lines[i]) && f.hasFreqs
    ensures i == k + |PostingLines(f, p)| ==> EndsTerm(lines[i]) || HasPrefix(lines[i], FIELDS_DOC)
    ensures f.hasFreqs <==> |PostingLines(f, p)| > 1
  {
    hide PositionsLines, Itoa, Atoi, Inside;
    NumberIs(FIELDS_DOC, p.doc);
    NumberIs(FIELDS_FREQ, p.freq);
    PositionsInside(f, p.positions);
    if i < k + |PostingLines(f, p)| {
      assert lines[i] == lines[k..k + |PostingLines(f, p)|][i - k];
    }
  }

  // All documents of a term

  /** From line k on stand the documents of a term, and behind them a line that ends
      it. */
  ghost predicate PostingsAt(lines: seq<string>, k: nat, f: Field, ps: seq<Posting>) {
    var n := |PostingsLines(f, ps)|;
    k + n < |lines| && lines[k..k + n] == PostingsLines(f, ps) && EndsTerm(lines[k + n])
  }

  ghost function PostingIndex(k: nat, f: Field, ps: seq<Posting>, j: nat): nat
    requires j <= |ps|
  {
    k + |PostingsLines(f, ps[..j])|
  }

  lemma {:induction false} PostingsSplit(f: Field, ps: seq<Posting>, j: nat)
    requires j <= |ps|
    ensures PostingsLines(f, ps) == PostingsLines(f, ps[..j]) + PostingsLines(f, ps[j..])
  {
    hide PostingLines;
    if j == |ps| {
      assert ps[..j] == ps && ps[j..] == [];
    } else {
      var n := |ps| - 1;
      PostingsSplit(f, ps[..n], j);
      assert ps[..n][..j] == ps[..j] && ps[..n][j..] == ps[j..n];
      assert ps[j..][..|ps| - 1 - j] == ps[j..n];
    }
  }

  lemma {:induction false} FirstOfPostings(f: Field, ps: seq<Posting>)
    ensures ps != [] ==> PostingsLines(f, ps) != [] && HasPrefix(PostingsLines(f, ps)[0], FIELDS_DOC)
  {
    if ps != [] {
      hide DetailLines;
      var n := |ps| - 1;
      FirstOfPostings(f, ps[..n]);
      OwnLabel(FIELDS_DOC, Itoa(ps[n].doc));
    }
  }

  lemma PostingOf(lines: seq<string>, k: nat, f: Field, ps: seq<Posting>, j: nat)
    requires PostingsAt(lines, k, f, ps) && j < |ps|
    ensures PostingAt(lines, PostingIndex(k, f, ps, j), f, ps[j])
    ensures PostingIndex(k, f, ps, j + 1) == PostingIndex(k, f, ps, j) + |PostingLines(f, ps[j])|
  {
    hide PostingLines, EndsTerm;
    var all, before, own, after := PostingsLines(f, ps), PostingsLines(f, ps[..j]), PostingLines(f, ps[j]),
                                   PostingsLines(f, ps[j + 1..]);
    PostingsSplit(f, ps, j + 1);
    assert ps[..j + 1][..j] == ps[..j];
    assert all == before + own + after;
    FirstOfPostings(f, ps[j + 1..]);
    Within(lines, k, before, own, after);
  }

  lemma Within(lines: seq<string>, k: nat, a: seq<string>, b: seq<string>, c: seq<string>)
    requires k + |a| + |b| + |c| < |lines| && lines[k..k + |a + b + c|] == a + b + c
    ensures lines[k + |a|..k + |a| + |b|] == b
    ensures c != [] ==> lines[k + |a| + |b|] == c[0]
  {
    var all := lines[k..k + |a + b + c|];
    forall i | 0 <= i < |b| ensures lines[k + |a| + i] == b[i] {
      assert all[|a| + i] == lines[k + |a| + i];
    }
    if c != [] {
      assert all[|a| + |b|] == lines[k + |a| + |b|];
    }
  }

  lemma PostingsEnd(lines: seq<string>, k: nat, f: Field, ps: seq<Posting>)
    requires PostingsAt(lines, k, f, ps)
    ensures PostingIndex(k, f, ps, |ps|) < |lines| && EndsTerm(lines[PostingIndex(k, f, ps, |ps|)])
    ensures PostingIndex(k, f, ps, 0) == k
  {
    assert ps[..|ps|] == ps && ps[..0] == [];
  }

  /** What a document enumeration delivers: the number, and the frequency as far as
      the field keeps it. */
  function Delivered(f: Field, ps: seq<Posting>): seq<(int, int)> {
    seq(|ps|, j requires 0 <= j < |ps| => (ps[j].doc, Occurrences(f, ps[j])))
  }

  /** nextDoc until there are no more. */
  method ReadPostings(input: IndexInput, fp: nat, omitTF: bool, ghost lines: seq<string>, ghost k: nat,
                      ghost f: Field, ghost ps: seq<Posting>) returns (docs: seq<(int, int)>)
    modifies input
    ensures Reading(input.data, 0, lines, fp, k) && PostingsAt(lines, k, f, ps) && omitTF == !f.hasFreqs ==>
              docs == Delivered(f, ps)
  {
    hide Print, LineAt, At, Reading, PostingsAt, PostingAt, PostingLines, EndsTerm, PostingIndex;
    ghost var good := Reading(input.data, 0, lines, fp, k) && PostingsAt(lines, k, f, ps) && omitTF == !f.hasFreqs;
    var docsEnum := new SimpleTextDocsEnum(input, fp, omitTF);
    docs := [];
    ghost var j := 0;
    if good {
      PostingsEnd(lines, k, f, ps);
    }
    while docsEnum.docID != NO_MORE_DOCS
      invariant good ==> j <= |ps| && docs == Delivered(f, ps)[..j] && (omitTF ==> docsEnum.tf == 1)
      invariant good ==>
                Reading(input.data, 0, lines, input.pos, PostingIndex(k, f, ps, j)) && docsEnum.docID != NO_MORE_DOCS
      decreases |input.data| - input.pos, docsEnum.docID != NO_MORE_DOCS
    {
      ghost var p := if good && j < |ps| then ps[j] else Posting(0, 0, []);
      if good && j < |ps| {
        PostingOf(lines, k, f, ps, j);
      }
      var doc := docsEnum.ReadDoc(lines, if good then PostingIndex(k, f, ps, j) else k, f, p, good && j < |ps|,
                                  good && j == |ps|);
      if doc.None? {
        break;
      }
      docs := docs + [(doc.value, docsEnum.tf)];
      j := j + 1;
    }
  }

  /** The first document at or beyond a target, from the j-th on. */
  function FirstFrom(ps: seq<Posting>, j: nat, target: int): int
    decreases |ps| - j
  {
    if j >= |ps| then NO_MORE_DOCS
    else if ps[j].doc >= target then ps[j].doc
    else FirstFrom(ps, j + 1, target)
  }

  /** advanceTarget reads one document, whatever the target. That is the first at or
      beyond the target exactly when the next document is not before it. */
  lemma {:induction false} AdvanceExactIff(ps: seq<Posting>, j: nat, target: int)
    requires j < |ps|
    ensures ps[j].doc == FirstFrom(ps, j, target) <==> ps[j].doc >= target
  {
    FirstIsBeyond(ps, j, target);
  }

  lemma {:induction false} FirstIsBeyond(ps: seq<Posting>, j: nat, target: int)
    ensures FirstFrom(ps, j, target) >= target || FirstFrom(ps, j, target) == NO_MORE_DOCS
    decreases |ps| - j
  {
    if j < |ps| {
      FirstIsBeyond(ps, j + 1, target);
    }
  }
}
