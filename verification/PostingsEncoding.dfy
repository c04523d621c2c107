/** The layout of a term's two streams while its postings are in memory
    (core/index/freqproxtermswriterperfield.go), and how they are read. */
module PostingsEncoding {
  import opened Bytes
  import opened Varint

  /** What a field records of its terms, each more than the one before. */
  datatype Options = Docs | Freqs | Positions | Offsets {
    predicate HasFreq() {
      this != Docs
    }

    predicate HasProx() {
      this == Positions || this == Offsets
    }

    predicate HasOffsets() {
      this == Offsets
    }
  }

  datatype Occurrence = Occurrence(position: nat, payload: seq<Byte>)

  /** A document of a term, with what the field records of it. */
  datatype Entry = Entry(doc: nat, freq: nat, occs: seq<Occurrence>)

  ghost predicate PositionsAscend(occs: seq<Occurrence>) {
    forall i, j | 0 <= i <= j < |occs| :: occs[i].position <= occs[j].position
  }

  ghost predicate DocsAscend(h: seq<Entry>) {
    forall i, j | 0 <= i < j < |h| :: h[i].doc < h[j].doc
  }

  /** A history as the consumer's calls make it. */
  ghost predicate History(o: Options, h: seq<Entry>) {
    && DocsAscend(h)
    && forall i | 0 <= i < |h| :: EntryRight(o, h[i])
  }

  ghost predicate EntryRight(o: Options, e: Entry) {
    && PositionsAscend(e.occs)
    && (if o.HasProx() then e.freq == |e.occs| else e.occs == [])
    && (!o.HasFreq() ==> e.freq == 1)
  }

  /** One more occurrence of the term: in the last document or in a later one. */
  function Feed(o: Options, h: seq<Entry>, doc: nat, freq: nat, occ: Occurrence): seq<Entry> {
    var n := |h| - 1;
    var occs := if o.HasProx() then [occ] else [];
    if h == [] || h[n].doc != doc then
      h + [Entry(doc, if o.HasFreq() then freq else 1, occs)]
    else
      h[..n] + [Entry(doc, if o.HasFreq() then h[n].freq + freq else 1, h[n].occs + occs)]
  }

  /** An occurrence may come next: documents do not go back, nor do positions in one. */
  ghost predicate MayFollow(h: seq<Entry>, doc: nat, occ: Occurrence) {
    var n := |h| - 1;
    h == [] || h[n].doc < doc
    || (h[n].doc == doc && forall i | 0 <= i < |h[n].occs| :: h[n].occs[i].position <= occ.position)
  }

  lemma PositionsGrow(occs: seq<Occurrence>, occ: Occurrence)
    requires PositionsAscend(occs) && forall i | 0 <= i < |occs| :: occs[i].position <= occ.position
    ensures PositionsAscend(occs + [occ])
  {
  }

  lemma LastIsRight(o: Options, h: seq<Entry>, doc: nat, freq: nat, occ: Occurrence)
    requires History(o, h) && MayFollow(h, doc, occ) && (o.HasProx() ==> freq == 1)
    ensures var h' := Feed(o, h, doc, freq, occ); EntryRight(o, h'[|h'| - 1])
  {
    var n := |h| - 1;
    if h != [] && h[n].doc == doc {
      assert EntryRight(o, h[n]);
      if o.HasProx() {
        PositionsGrow(h[n].occs, occ);
      }
    }
  }

  lemma FeedKeeps(o: Options, h: seq<Entry>, doc: nat, freq: nat, occ: Occurrence)
    requires History(o, h) && MayFollow(h, doc, occ) && (o.HasProx() ==> freq == 1)
    ensures History(o, Feed(o, h, doc, freq, occ))
  {
    hide EntryRight;
    LastIsRight(o, h, doc, freq, occ);
    var h' := Feed(o, h, doc, freq, occ);
    forall i | 0 <= i < |h'| ensures EntryRight(o, h'[i]) {
      if i < |h'| - 1 {
        assert h'[i] == h[i];
      }
    }
  }

  // The layout

  /** From `a` on to `b`. */
  function Delta(a: nat, b: nat): nat {
    if a <= b then b - a else 0
  }

  function DocBefore(h: seq<Entry>, i: nat): nat
    requires i <= |h|
  {
    if i == 0 then 0 else h[i - 1].doc
  }

  function EntryBytes(o: Options, delta: nat, freq: nat): seq<Byte> {
    if !o.HasFreq() then Uvarint(delta)
    else if freq == 1 then Uvarint(2 * delta + 1)
    else Uvarint(2 * delta) + Uvarint(freq)
  }

  function EntryPart(o: Options, h: seq<Entry>, i: nat): seq<Byte>
    requires i < |h|
  {
    EntryBytes(o, Delta(DocBefore(h, i), h[i].doc), h[i].freq)
  }

  /** Stream 0, as far as the first n documents. */
  function DocParts(o: Options, h: seq<Entry>, n: nat): (parts: seq<seq<Byte>>)
    requires n <= |h|
    ensures |parts| == n
  {
    seq(n, i requires 0 <= i < n => EntryPart(o, h, i))
  }

  function PositionBefore(occs: seq<Occurrence>, i: nat): nat
    requires i <= |occs|
  {
    if i == 0 then 0 else occs[i - 1].position
  }

  function OccBytes(delta: nat, payload: seq<Byte>): seq<Byte> {
    if payload == [] then Uvarint(2 * delta)
    else Uvarint(2 * delta + 1) + (Uvarint(|payload|) + payload)
  }

  function OccPart(occs: seq<Occurrence>, i: nat): seq<Byte>
    requires i < |occs|
  {
    OccBytes(Delta(PositionBefore(occs, i), occs[i].position), occs[i].payload)
  }

  function OccParts(occs: seq<Occurrence>): (parts: seq<seq<Byte>>)
    ensures |parts| == |occs|
  {
    seq(|occs|, i requires 0 <= i < |occs| => OccPart(occs, i))
  }

  /** Stream 1, document by document. */
  function ProxParts(h: seq<Entry>): (parts: seq<seq<Byte>>)
    ensures |parts| == |h|
  {
    seq(|h|, i requires 0 <= i < |h| => Flat(OccParts(h[i].occs)))
  }

  // Reading

  /** One document's code: the delta, the frequency, and the position after it. */
  function EntryAt(o: Options, f: seq<Byte>, pos: nat): (r: Option<(nat, nat, nat)>)
    ensures r.Some? ==> pos < r.value.2 <= |f|
  {
    match UvarintAt(f, pos)
    case None => None
    case Some(code) =>
      if !o.HasFreq() then Some((code.0, 1, code.1))
      else if code.0 % 2 == 1 then Some((code.0 / 2, 1, code.1))
      else
        match UvarintAt(f, code.1)
        case None => None
        case Some(freq) => Some((code.0 / 2, freq.0, freq.1))
  }

  /** The documents and frequencies from `pos` to the end. */
  function ReadEntries(o: Options, f: seq<Byte>, pos: nat, prev: nat): Option<seq<(nat, nat)>>
    decreases |f| - pos
  {
    if pos >= |f| then Some([]) else
    match EntryAt(o, f, pos)
    case None => None
    case Some(e) =>
      match ReadEntries(o, f, e.2, prev + e.0)
      case None => None
      case Some(rest) => Some([(prev + e.0, e.1)] + rest)
  }

  /** One occurrence: the delta, the payload, and the position after them. */
  function OccAt(f: seq<Byte>, pos: nat): (r: Option<(nat, seq<Byte>, nat)>)
    ensures r.Some? ==> pos < r.value.2 <= |f|
  {
    match UvarintAt(f, pos)
    case None => None
    case Some(code) =>
      if code.0 % 2 == 0 then Some((code.0 / 2, [], code.1))
      else
        match UvarintAt(f, code.1)
        case None => None
        case Some(size) =>
          if size.1 + size.0 > |f| then None
          else Some((code.0 / 2, f[size.1..size.1 + size.0], size.1 + size.0))
  }

  /** `count` occurrences. */
  function ReadOccs(f: seq<Byte>, pos: nat, last: nat, count: nat): Option<(seq<Occurrence>, nat)>
    decreases count
  {
    if count == 0 then Some(([], pos)) else
    match OccAt(f, pos)
    case None => None
    case Some(x) =>
      match ReadOccs(f, x.2, last + x.0, count - 1)
      case None => None
      case Some(rest) => Some(([Occurrence(last + x.0, x.1)] + rest.0, rest.1))
  }

  /** The occurrences of each document, by its frequency. */
  function ReadAllOccs(f: seq<Byte>, pos: nat, docs: seq<(nat, nat)>): Option<seq<Entry>>
    decreases |docs|
  {
    if docs == [] then Some([]) else
    match ReadOccs(f, pos, 0, docs[0].1)
    case None => None
    case Some(x) =>
      match ReadAllOccs(f, x.1, docs[1..])
      case None => None
      case Some(rest) => Some([Entry(docs[0].0, docs[0].1, x.0)] + rest)
  }

  /** The streams of a term, and what is held back in the arrays. */
  datatype TermState = TermState(docs: seq<Byte>, prox: seq<Byte>,
                                 termFreq: int, lastDocID: int, lastDocCode: int, lastPosition: int)

  function HeldBack(o: Options, s: TermState): Option<(nat, nat)> {
    if s.lastDocID < 0 || (o.HasFreq() && s.termFreq < 0) then None
    else Some((s.lastDocID, if o.HasFreq() then s.termFreq else 1))
  }

  function WithoutOccs(docs: seq<(nat, nat)>): seq<Entry> {
    seq(|docs|, i requires 0 <= i < |docs| => Entry(docs[i].0, docs[i].1, []))
  }

  /** All documents of a term: those in stream 0 and the one held back. */
  function DocsOf(o: Options, s: TermState): Option<seq<(nat, nat)>> {
    match (ReadEntries(o, s.docs, 0, 0), HeldBack(o, s))
    case (Some(docs), Some(last)) => Some(docs + [last])
    case _ => None
  }

  function Decode(o: Options, s: TermState): Option<seq<Entry>> {
    match DocsOf(o, s)
    case None => None
    case Some(docs) => if o.HasProx() then ReadAllOccs(s.prox, 0, docs) else Some(WithoutOccs(docs))
  }

  // What is written is read

  const Limit := 0x4000_0000_0000_0000

  /** The numbers fit the machine's. */
  ghost predicate Fits(h: seq<Entry>) {
    forall i | 0 <= i < |h| :: h[i].doc < Limit && h[i].freq < Limit && OccsFit(h[i].occs)
  }

  ghost predicate OccsFit(occs: seq<Occurrence>) {
    forall i | 0 <= i < |occs| :: occs[i].position < Limit && |occs[i].payload| < Limit
  }

  lemma EntryRoundTrip(o: Options, f: seq<Byte>, pos: nat, delta: nat, freq: nat)
    requires At(f, pos, EntryBytes(o, delta, freq)) && delta < Limit && freq < Limit && (!o.HasFreq() ==> freq == 1)
    ensures EntryAt(o, f, pos) == Some((delta, freq, pos + |EntryBytes(o, delta, freq)|))
  {
    hide Uvarint, UvarintAt;
    if !o.HasFreq() {
      UvarintRoundTrip(f, pos, delta);
    } else if freq == 1 {
      UvarintRoundTrip(f, pos, 2 * delta + 1);
    } else {
      AtSplit(f, pos, Uvarint(2 * delta), Uvarint(freq));
      UvarintRoundTrip(f, pos, 2 * delta);
      UvarintRoundTrip(f, pos + |Uvarint(2 * delta)|, freq);
    }
  }

  lemma OccRoundTrip(f: seq<Byte>, pos: nat, delta: nat, payload: seq<Byte>)
    requires At(f, pos, OccBytes(delta, payload)) && delta < Limit && |payload| < Limit
    ensures OccAt(f, pos) == Some((delta, payload, pos + |OccBytes(delta, payload)|))
  {
    hide Uvarint, UvarintAt;
    if payload == [] {
      UvarintRoundTrip(f, pos, 2 * delta);
    } else {
      var code, size := Uvarint(2 * delta + 1), Uvarint(|payload|);
      AtSplit(f, pos, code, size + payload);
      AtSplit(f, pos + |code|, size, payload);
      UvarintRoundTrip(f, pos, 2 * delta + 1);
      UvarintRoundTrip(f, pos + |code|, |payload|);
    }
  }

  function Pairs(h: seq<Entry>, from: nat, to: nat): (r: seq<(nat, nat)>)
    requires from <= to <= |h|
    ensures |r| == to - from
  {
    seq(to - from, i requires 0 <= i < to - from => (h[from + i].doc, h[from + i].freq))
  }

  /** Reading stream 0 from the k-th document on. */
  lemma {:induction false} EntriesRecovered(o: Options, h: seq<Entry>, n: nat, f: seq<Byte>, k: nat)
    requires History(o, h) && Fits(h) && k <= n <= |h| && f == Flat(DocParts(o, h, n))
    ensures ReadEntries(o, f, |Flat(DocParts(o, h, n)[..k])|, DocBefore(h, k)) == Some(Pairs(h, k, n))
    decreases n - k
  {
    hide EntryBytes, EntryAt, Flat;
    var parts := DocParts(o, h, n);
    var pos := |Flat(parts[..k])|;
    if k == n {
      FlatAll(parts);
      assert Pairs(h, k, n) == [];
    } else {
      assert At(f, 0, Flat(parts));
      AtFlat(f, 0, parts, k);
      assert EntryRight(o, h[k]);
      EntryRoundTrip(o, f, pos, Delta(DocBefore(h, k), h[k].doc), h[k].freq);
      FlatNext(parts, k);
      EntriesRecovered(o, h, n, f, k + 1);
      assert Pairs(h, k, n) == [(h[k].doc, h[k].freq)] + Pairs(h, k + 1, n);
    }
  }

  /** Reading the occurrences of one document from the k-th on. */
  lemma {:induction false} OccsRecovered(occs: seq<Occurrence>, f: seq<Byte>, start: nat, k: nat)
    requires PositionsAscend(occs) && OccsFit(occs) && k <= |occs| && At(f, start, Flat(OccParts(occs)))
    ensures ReadOccs(f, start + |Flat(OccParts(occs)[..k])|, PositionBefore(occs, k), |occs| - k)
            == Some((occs[k..], start + |Flat(OccParts(occs))|))
    decreases |occs| - k
  {
    hide OccBytes, OccAt, Flat;
    var parts := OccParts(occs);
    var pos := start + |Flat(parts[..k])|;
    if k == |occs| {
      FlatAll(parts);
      assert occs[k..] == [];
    } else {
      AtFlat(f, start, parts, k);
      OccRoundTrip(f, pos, Delta(PositionBefore(occs, k), occs[k].position), occs[k].payload);
      FlatNext(parts, k);
      OccsRecovered(occs, f, start, k + 1);
      assert occs[k..] == [occs[k]] + occs[k + 1..];
    }
  }

  /** Reading stream 1 from the k-th document on. */
  lemma {:induction false} ProxRecovered(o: Options, h: seq<Entry>, f: seq<Byte>, k: nat)
    requires o.HasProx() && History(o, h) && Fits(h) && k <= |h| && f == Flat(ProxParts(h))
    ensures ReadAllOccs(f, |Flat(ProxParts(h)[..k])|, Pairs(h, k, |h|)) == Some(h[k..])
    decreases |h| - k
  {
    hide Flat, ReadOccs, PositionsAscend, OccsFit;
    if k == |h| {
      assert Pairs(h, k, |h|) == [] && h[k..] == [];
    } else {
      var parts := ProxParts(h);
      var pos := |Flat(parts[..k])|;
      assert At(f, 0, Flat(parts));
      AtFlat(f, 0, parts, k);
      assert EntryRight(o, h[k]);
      OccsRecovered(h[k].occs, f, pos, 0);
      NoParts(OccParts(h[k].occs));
      FlatNext(parts, k);
      ProxRecovered(o, h, f, k + 1);
      assert Pairs(h, k, |h|)[1..] == Pairs(h, k + 1, |h|);
      assert h[k].occs[0..] == h[k].occs && h[k..] == [h[k]] + h[k + 1..];
    }
  }

  lemma NoParts(parts: seq<seq<Byte>>)
    ensures Flat(parts[..0]) == []
  {
    assert parts[..0] == [];
  }

  // The encoder's state

  /** What is kept of a document until its frequency is known. */
  function DocCode(o: Options, delta: nat): nat {
    if o.HasFreq() then 2 * delta else delta
  }

  /** The streams and the arrays hold exactly this history of a term. */
  ghost predicate Encodes(o: Options, s: TermState, h: seq<Entry>) {
    var n := |h| - 1;
    && h != [] && History(o, h)
    && s.docs == Flat(DocParts(o, h, n))
    && s.lastDocID == h[n].doc
    && s.lastDocCode == DocCode(o, Delta(DocBefore(h, n), h[n].doc))
    && (o.HasFreq() ==> s.termFreq == h[n].freq)
    && (o.HasProx() ==> s.prox == Flat(ProxParts(h)) && s.lastPosition == PositionBefore(h[n].occs, |h[n].occs|))
  }

  /** Nothing that was fed is lost, at any moment. */
  lemma NothingIsLost(o: Options, s: TermState, h: seq<Entry>)
    requires Encodes(o, s, h) && Fits(h)
    ensures Decode(o, s) == Some(h)
  {
    hide Flat, ReadEntries, ReadAllOccs, Fits;
    var n := |h| - 1;
    EntriesRecovered(o, h, n, s.docs, 0);
    NoParts(DocParts(o, h, n));
    assert EntryRight(o, h[n]);
    assert Pairs(h, 0, |h|) == Pairs(h, 0, n) + [(h[n].doc, h[n].freq)];
    assert DocsOf(o, s) == Some(Pairs(h, 0, |h|));
    if o.HasProx() {
      ProxRecovered(o, h, s.prox, 0);
      NoParts(ProxParts(h));
      assert h[0..] == h;
    } else {
      assert forall i | 0 <= i < |h| :: EntryRight(o, h[i]) && h[i].occs == [];
      assert WithoutOccs(Pairs(h, 0, |h|)) == h;
    }
  }

  /** The bytes that complete the document held back. */
  function HeldBytes(o: Options, s: TermState): seq<Byte>
    requires s.lastDocCode >= 0 && s.termFreq >= 0
  {
    if !o.HasFreq() then Uvarint(s.lastDocCode)
    else if s.termFreq == 1 then Uvarint(Flagged(s.lastDocCode))
    else Uvarint(s.lastDocCode) + Uvarint(s.termFreq)
  }

  /** The number with its lowest bit set. */
  function Flagged(n: nat): nat {
    if n % 2 == 0 then n + 1 else n
  }

  /** The first occurrence of a term. */
  lemma FirstEncodes(o: Options, s: TermState, doc: nat, freq: nat, occ: Occurrence)
    requires o.HasProx() ==> freq == 1
    requires s.docs == [] && s.lastDocID == doc && s.lastDocCode == DocCode(o, doc)
    requires o.HasFreq() ==> s.termFreq == freq
    requires o.HasProx() ==> s.prox == OccBytes(occ.position, occ.payload) && s.lastPosition == occ.position
    ensures Encodes(o, s, Feed(o, [], doc, freq, occ))
  {
    hide OccBytes;
    var h := Feed(o, [], doc, freq, occ);
    FeedKeeps(o, [], doc, freq, occ);
    NoParts(DocParts(o, h, 1));
    assert DocParts(o, h, 0) == [];
    if o.HasProx() {
      FirstOcc(occ);
      OneMoreDoc([], h[0]);
    }
  }

  lemma OneMoreOcc(occs: seq<Occurrence>, occ: Occurrence)
    ensures Flat(OccParts(occs + [occ])) ==
            Flat(OccParts(occs)) + OccBytes(Delta(PositionBefore(occs, |occs|), occ.position), occ.payload)
  {
    var parts := OccParts(occs + [occ]);
    assert parts[..|occs|] == OccParts(occs);
    assert (occs + [occ])[|occs|] == occ;
  }

  lemma FirstOcc(occ: Occurrence)
    ensures Flat(OccParts([occ])) == OccBytes(occ.position, occ.payload)
  {
    OneMoreOcc([], occ);
    assert [] + [occ] == [occ] && OccParts([]) == [];
  }

  lemma OneMoreDoc(h: seq<Entry>, e: Entry)
    ensures Flat(ProxParts(h + [e])) == Flat(ProxParts(h)) + Flat(OccParts(e.occs))
  {
    assert ProxParts(h + [e])[..|h|] == ProxParts(h);
  }

  /** What completes the document held back is its part of stream 0. */
  lemma HeldIsPart(o: Options, s: TermState, h: seq<Entry>)
    requires Encodes(o, s, h) && s.termFreq >= 0
    ensures s.docs + HeldBytes(o, s) == Flat(DocParts(o, h, |h|))
  {
    var n := |h| - 1;
    assert EntryRight(o, h[n]);
    assert DocParts(o, h, |h|)[..n] == DocParts(o, h, n);
  }

  /** An occurrence in the next document. */
  lemma NextDocEncodes(o: Options, s: TermState, h: seq<Entry>, s': TermState, doc: nat, freq: nat, occ: Occurrence)
    requires Encodes(o, s, h) && s.lastDocID < doc && s.termFreq >= 0 && (o.HasProx() ==> freq == 1)
    requires s'.docs == s.docs + HeldBytes(o, s) && s'.lastDocID == doc
    requires s'.lastDocCode == DocCode(o, doc - s.lastDocID)
    requires o.HasFreq() ==> s'.termFreq == freq
    requires o.HasProx() ==> s'.prox == s.prox + OccBytes(occ.position, occ.payload) && s'.lastPosition == occ.position
    ensures Encodes(o, s', Feed(o, h, doc, freq, occ))
  {
    hide OccBytes, HeldBytes, Flat;
    var n := |h| - 1;
    var h' := Feed(o, h, doc, freq, occ);
    FeedKeeps(o, h, doc, freq, occ);
    HeldIsPart(o, s, h);
    assert DocParts(o, h', |h|) == DocParts(o, h, |h|);
    if o.HasProx() {
      FirstOcc(occ);
      OneMoreDoc(h, h'[n + 1]);
    }
  }

  /** An occurrence in the same document. */
  lemma SameDocEncodes(o: Options, s: TermState, h: seq<Entry>, s': TermState, freq: nat, occ: Occurrence)
    requires Encodes(o, s, h) && MayFollow(h, h[|h| - 1].doc, occ) && (o.HasProx() ==> freq == 1)
    requires s'.docs == s.docs && s'.lastDocID == s.lastDocID && s'.lastDocCode == s.lastDocCode
    requires o.HasFreq() ==> s'.termFreq == s.termFreq + freq
    requires o.HasProx() ==> s.lastPosition <= occ.position
    requires o.HasProx() ==>
              s'.prox == s.prox + OccBytes(occ.position - s.lastPosition, occ.payload)
                && s'.lastPosition == occ.position
    ensures Encodes(o, s', Feed(o, h, h[|h| - 1].doc, freq, occ))
  {
    hide OccBytes, Flat, History, MayFollow;
    var n := |h| - 1;
    var h' := Feed(o, h, h[n].doc, freq, occ);
    FeedKeeps(o, h, h[n].doc, freq, occ);
    assert DocParts(o, h', n) == DocParts(o, h, n);
    if o.HasProx() {
      OneMoreOcc(h[n].occs, occ);
      assert h[..n] + [h[n]] == h && h[..n] + [h'[n]] == h';
      OneMoreDoc(h[..n], h[n]);
      OneMoreDoc(h[..n], h'[n]);
    }
  }

  /** A token that is refused after the document held back was written leaves that
      document twice: in stream 0 and held back still. */
  lemma RefusalRepeatsDoc(o: Options, s: TermState, h: seq<Entry>)
    requires Encodes(o, s, h) && Fits(h) && s.termFreq >= 0
    ensures var n := |h| - 1;
            DocsOf(o, s.(docs := s.docs + HeldBytes(o, s))) == Some(Pairs(h, 0, |h|) + [(h[n].doc, h[n].freq)])
    ensures DocsOf(o, s) == Some(Pairs(h, 0, |h|))
  {
    hide Flat, ReadEntries, Fits, HeldBytes;
    var n := |h| - 1;
    HeldIsPart(o, s, h);
    EntriesRecovered(o, h, n, s.docs, 0);
    EntriesRecovered(o, h, |h|, s.docs + HeldBytes(o, s), 0);
    NoParts(DocParts(o, h, n));
    NoParts(DocParts(o, h, |h|));
    assert EntryRight(o, h[n]);
    assert Pairs(h, 0, |h|) == Pairs(h, 0, n) + [(h[n].doc, h[n].freq)];
  }
}
