/** The lines of a text postings file (codecs/simpletext/fieldswriter.go). */
module PostingsText {
  import opened Text
  import opened Numerals

  const FIELDS_END := "END"
  const FIELDS_FIELD := "field "
  const FIELDS_TERM := "  term "
  const FIELDS_DOC := "    doc "
  const FIELDS_FREQ := "      freq "
  const FIELDS_POS := "      pos "
  const FIELDS_START_OFFSET := "      startOffset "
  const FIELDS_END_OFFSET := "      endOffset "
  const FIELDS_PAYLOAD := "        payload "
  const SKIP_LIST := "    skipList "
  const CHECKSUM := "checksum "

  const BLOCK_SIZE := 8

  /** A document number; the greatest of 31 bits means that there are no more. */
  type DocId = n: int | 0 <= n < 0x7fff_ffff
  type Freq = n: int | 0 <= n < 0x8000_0000

  type Int64 = n: int | -0x8000_0000_0000_0000 <= n < 0x8000_0000_0000_0000

  datatype Position = Position(pos: Int64, startOffset: Int64, endOffset: Int64, payload: string)

  datatype Posting = Posting(doc: DocId, freq: Freq, positions: seq<Position>)

  datatype Term = Term(text: string, postings: seq<Posting>)

  datatype Field = Field(name: string, hasFreqs: bool, hasPositions: bool, hasOffsets: bool, terms: seq<Term>)

  // Lines

  function PositionLines(f: Field, p: Position): seq<string> {
    [FIELDS_POS + Itoa(p.pos)]
    + (if f.hasOffsets then [FIELDS_START_OFFSET + Itoa(p.startOffset), FIELDS_END_OFFSET + Itoa(p.endOffset)] else [])
    + (if p.payload != [] then [FIELDS_PAYLOAD + p.payload] else [])
  }

  function PositionsLines(f: Field, ps: seq<Position>): seq<string> {
    if ps == [] then [] else PositionsLines(f, ps[..|ps| - 1]) + PositionLines(f, ps[|ps| - 1])
  }

  /** What follows the document line of a posting. */
  function DetailLines(f: Field, p: Posting): seq<string> {
    if !f.hasFreqs then []
    else [FIELDS_FREQ + Itoa(p.freq)] + (if f.hasPositions then PositionsLines(f, p.positions) else [])
  }

  function PostingLines(f: Field, p: Posting): seq<string> {
    [FIELDS_DOC + Itoa(p.doc)] + DetailLines(f, p)
  }

  function PostingsLines(f: Field, ps: seq<Posting>): seq<string> {
    if ps == [] then [] else PostingsLines(f, ps[..|ps| - 1]) + PostingLines(f, ps[|ps| - 1])
  }

  function SkipLines(n: nat): seq<string> {
    if n >= BLOCK_SIZE then [SKIP_LIST] else []
  }

  /** A term without documents leaves no trace. */
  function TermLines(f: Field, t: Term): seq<string> {
    if t.postings == [] then []
    else [FIELDS_TERM + t.text] + PostingsLines(f, t.postings) + SkipLines(|t.postings|)
  }

  function TermsLines(f: Field, ts: seq<Term>): seq<string> {
    if ts == [] then [] else TermsLines(f, ts[..|ts| - 1]) + TermLines(f, ts[|ts| - 1])
  }

  predicate Inhabited(ts: seq<Term>) {
    exists t <- ts :: t.postings != []
  }

  /** A field is named in the file once one of its terms has a document. */
  function FieldLines(f: Field): seq<string> {
    HeadLines(f, Inhabited(f.terms)) + TermsLines(f, f.terms)
  }

  function HeadLines(f: Field, named: bool): seq<string> {
    if named then [FIELDS_FIELD + f.name] else []
  }

  function FieldsLines(fs: seq<Field>): seq<string> {
    if fs == [] then [] else FieldsLines(fs[..|fs| - 1]) + FieldLines(fs[|fs| - 1])
  }

  /** The whole file, with the checksum line that closes it. */
  function FileLines(fs: seq<Field>, checksum: string): seq<string> {
    FieldsLines(fs) + [FIELDS_END, CHECKSUM + checksum]
  }

  // Labels: the first letter after the indentation tells them apart

  datatype Tag = IsField | IsTerm | IsDoc | IsFreq | IsPos | IsStart | IsEndOffset | IsPayload | IsSkip | IsEnd | NoTag

  function CharAt(s: string, i: nat): char {
    if i < |s| then s[i] else '.'
  }

  function TagOf(line: string): Tag {
    if CharAt(line, 0) == 'f' then IsField
    else if CharAt(line, 0) == 'E' then IsEnd
    else if CharAt(line, 2) == 't' then IsTerm
    else if CharAt(line, 4) == 'd' then IsDoc
    else if CharAt(line, 4) == 's' then IsSkip
    else if CharAt(line, 6) == 'f' then IsFreq
    else if CharAt(line, 6) == 'p' then IsPos
    else if CharAt(line, 6) == 's' then IsStart
    else if CharAt(line, 6) == 'e' then IsEndOffset
    else if CharAt(line, 8) == 'p' then IsPayload
    else NoTag
  }

  /** A line starts with at most one label. */
  lemma OneLabel(line: string)
    ensures HasPrefix(line, FIELDS_FIELD) ==> TagOf(line) == IsField
    ensures HasPrefix(line, FIELDS_END) ==> TagOf(line) == IsEnd
    ensures HasPrefix(line, FIELDS_TERM) ==> TagOf(line) == IsTerm
    ensures HasPrefix(line, FIELDS_DOC) ==> TagOf(line) == IsDoc
    ensures HasPrefix(line, SKIP_LIST) ==> TagOf(line) == IsSkip
    ensures HasPrefix(line, FIELDS_FREQ) ==> TagOf(line) == IsFreq
    ensures HasPrefix(line, FIELDS_POS) ==> TagOf(line) == IsPos
    ensures HasPrefix(line, FIELDS_START_OFFSET) ==> TagOf(line) == IsStart
    ensures HasPrefix(line, FIELDS_END_OFFSET) ==> TagOf(line) == IsEndOffset
    ensures HasPrefix(line, FIELDS_PAYLOAD) ==> TagOf(line) == IsPayload
    ensures HasPrefix(line, FIELDS_DOC) ==> |FIELDS_DOC| <= |line|
    ensures HasPrefix(line, FIELDS_FREQ) ==> |FIELDS_FREQ| <= |line|
  {
    TopLabels(line);
    FourLabels(line);
    SixLabels(line);
  }

  lemma TopLabels(line: string)
    ensures HasPrefix(line, FIELDS_FIELD) ==> TagOf(line) == IsField
    ensures HasPrefix(line, FIELDS_END) ==> TagOf(line) == IsEnd
    ensures HasPrefix(line, FIELDS_TERM) ==> TagOf(line) == IsTerm
  {
    if HasPrefix(line, FIELDS_FIELD) {
      PrefixAt(line, FIELDS_FIELD, 0);
    }
    if HasPrefix(line, FIELDS_END) {
      PrefixAt(line, FIELDS_END, 0);
    }
    if HasPrefix(line, FIELDS_TERM) {
      PrefixAt(line, FIELDS_TERM, 0);
      PrefixAt(line, FIELDS_TERM, 2);
    }
  }

  lemma FourLabels(line: string)
    ensures HasPrefix(line, FIELDS_DOC) ==> TagOf(line) == IsDoc
    ensures HasPrefix(line, SKIP_LIST) ==> TagOf(line) == IsSkip
  {
    if HasPrefix(line, FIELDS_DOC) {
      PrefixAt(line, FIELDS_DOC, 0);
      PrefixAt(line, FIELDS_DOC, 2);
      PrefixAt(line, FIELDS_DOC, 4);
    }
    if HasPrefix(line, SKIP_LIST) {
      PrefixAt(line, SKIP_LIST, 0);
      PrefixAt(line, SKIP_LIST, 2);
      PrefixAt(line, SKIP_LIST, 4);
    }
  }

  lemma SixLabels(line: string)
    ensures HasPrefix(line, FIELDS_FREQ) ==> TagOf(line) == IsFreq
    ensures HasPrefix(line, FIELDS_POS) ==> TagOf(line) == IsPos
    ensures HasPrefix(line, FIELDS_START_OFFSET) ==> TagOf(line) == IsStart
    ensures HasPrefix(line, FIELDS_END_OFFSET) ==> TagOf(line) == IsEndOffset
    ensures HasPrefix(line, FIELDS_PAYLOAD) ==> TagOf(line) == IsPayload
  {
    SixLabel(line, FIELDS_FREQ);
    SixLabel(line, FIELDS_POS);
    SixLabel(line, FIELDS_START_OFFSET);
    SixLabel(line, FIELDS_END_OFFSET);
    SixLabel(line, FIELDS_PAYLOAD);
    if HasPrefix(line, FIELDS_PAYLOAD) {
      PrefixAt(line, FIELDS_PAYLOAD, 8);
    }
  }

  lemma SixLabel(line: string, tag: string)
    requires |tag| > 6 && tag[0] == tag[2] == tag[4] == ' '
    ensures HasPrefix(line, tag) ==>
              CharAt(line, 0) == CharAt(line, 2) == CharAt(line, 4) == ' ' && CharAt(line, 6) == tag[6]
  {
    if HasPrefix(line, tag) {
      PrefixAt(line, tag, 0);
      PrefixAt(line, tag, 2);
      PrefixAt(line, tag, 4);
      PrefixAt(line, tag, 6);
    }
  }
}
