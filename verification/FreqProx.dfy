/** The consumer of a field's tokens: the postings of each term grow in two streams,
    and its last document stays back in parallel arrays
    (core/index/freqproxtermswriterperfield.go, freqproxpostingsarray.go). */
module FreqProx {
  import opened Bytes
  import opened Varint
  import opened PostingsEncoding

  /** Setting an element of an array that grows as needed. */
  function Set(s: seq<int>, i: nat, v: int): (r: seq<int>)
    ensures |r| == if i < |s| then |s| else i + 1
    ensures r[i] == v
    ensures forall k | 0 <= k < |r| && k != i :: r[k] == if k < |s| then s[k] else 0
  {
    if i < |s| then s[i := v] else s + seq(i - |s|, _ => 0) + [v]
  }

  class FreqProxPostingsArray {
    var termFreqs: seq<int>
    var lastDocIDs: seq<int>
    var lastDocCodes: seq<int>
    var lastPositions: seq<int>
    var lastOffsets: seq<int>

    constructor ()
      ensures termFreqs == [] && lastDocIDs == [] && lastDocCodes == [] && lastPositions == [] && lastOffsets == []
    {
      termFreqs, lastDocIDs, lastDocCodes, lastPositions, lastOffsets := [], [], [], [], [];
    }

    method SetTermFreqs(termID: nat, v: int)
      modifies this`termFreqs
      ensures termFreqs == Set(old(termFreqs), termID, v)
    {
      if termID >= |termFreqs| {
        termFreqs := termFreqs + seq(termID - |termFreqs| + 1, _ => 0);
      }
      termFreqs := termFreqs[termID := v];
    }

    method SetLastDocIDs(termID: nat, v: int)
      modifies this`lastDocIDs
      ensures lastDocIDs == Set(old(lastDocIDs), termID, v)
    {
      if termID >= |lastDocIDs| {
        lastDocIDs := lastDocIDs + seq(termID - |lastDocIDs| + 1, _ => 0);
      }
      lastDocIDs := lastDocIDs[termID := v];
    }

    method SetLastDocCodes(termID: nat, v: int)
      modifies this`lastDocCodes
      ensures lastDocCodes == Set(old(lastDocCodes), termID, v)
    {
      if termID >= |lastDocCodes| {
        lastDocCodes := lastDocCodes + seq(termID - |lastDocCodes| + 1, _ => 0);
      }
      lastDocCodes := lastDocCodes[termID := v];
    }

    method SetLastPositions(termID: nat, v: int)
      modifies this`lastPositions
      ensures lastPositions == Set(old(lastPositions), termID, v)
    {
      if termID >= |lastPositions| {
        lastPositions := lastPositions + seq(termID - |lastPositions| + 1, _ => 0);
      }
      lastPositions := lastPositions[termID := v];
    }

    method SetLastOffsets(termID: nat, v: int)
      modifies this`lastOffsets
      ensures lastOffsets == Set(old(lastOffsets), termID, v)
    {
      if termID >= |lastOffsets| {
        lastOffsets := lastOffsets + seq(termID - |lastOffsets| + 1, _ => 0);
      }
      lastOffsets := lastOffsets[termID := v];
    }
  }

  /** What the field's state and the token's attributes say: an empty payload stands
      for none. */
  datatype Token = Token(occ: Occurrence, termFreq: nat, startOffset: nat, endOffset: nat)

  datatype Streams = Streams(docs: seq<Byte>, prox: seq<Byte>)

  function Value(s: seq<int>, i: nat): int {
    if i < |s| then s[i] else 0
  }

  function Max(a: int, b: int): int {
    if a < b then b else a
  }

  /** The frequency in the last document. */
  function LastFreq(h: seq<Entry>): int {
    if h == [] then 0 else h[|h| - 1].freq
  }

  class FreqProxTermsWriterPerField {
    const options: Options
    const postings: FreqProxPostingsArray
    var bytesHash: map<seq<Byte>, nat>
    var streams: seq<Streams>
    var sawPayloads: bool
    var maxTermFrequency: int
    var uniqueTermCount: int
    ghost var histories: seq<seq<Entry>>

    ghost function StateOf(t: nat): TermState
      reads this, postings
    {
      TermState(if t < |streams| then streams[t].docs else [], if t < |streams| then streams[t].prox else [],
                Value(postings.termFreqs, t), Value(postings.lastDocIDs, t),
                Value(postings.lastDocCodes, t), Value(postings.lastPositions, t))
    }

    /** The arrays have an element for each of n terms. */
    ghost predicate Sized(n: nat)
      reads this, postings
    {
      && |histories| == n && |postings.lastDocIDs| == n && |postings.lastDocCodes| == n
      && |postings.termFreqs| == (if options.HasFreq() then n else 0)
      && |postings.lastPositions| == (if options.HasProx() then n else 0)
      && postings.lastOffsets == [] && (options.HasOffsets() ==> n == 0)
    }

    ghost predicate Encoded()
      reads this, postings
    {
      forall t | 0 <= t < |histories| :: Encodes(options, StateOf(t), histories[t])
    }

    /** The hash numbers the terms in the order of their first tokens. */
    ghost predicate Hashed()
      reads this
    {
      && (forall x <- bytesHash :: bytesHash[x] < |histories|)
      && forall x, y | x in bytesHash && y in bytesHash && bytesHash[x] == bytesHash[y] :: x == y
    }

    ghost predicate Valid()
      reads this, postings
    {
      Sized(|streams|) && Encoded() && Hashed()
    }

    ghost function HistoryOf(term: seq<Byte>): seq<Entry>
      reads this
    {
      if term in bytesHash && bytesHash[term] < |histories| then histories[bytesHash[term]] else []
    }

    constructor (options: Options)
      ensures Valid() && this.options == options && bytesHash == map[] && fresh(postings)
      ensures !sawPayloads && maxTermFrequency == 0 && uniqueTermCount == 0
    {
      this.options := options;
      postings := new FreqProxPostingsArray();
      bytesHash, streams, histories := map[], [], [];
      sawPayloads, maxTermFrequency, uniqueTermCount := false, 0, 0;
    }

    method WriteVInt(termID: nat, stream: nat, n: nat)
      requires termID < |streams|
      modifies this`streams
      ensures stream == 0 ==>
                streams == old(streams)[termID := old(streams[termID]).(docs := old(streams[termID]).docs + Uvarint(n))]
      ensures stream != 0 ==>
                streams == old(streams)[termID := old(streams[termID]).(prox := old(streams[termID]).prox + Uvarint(n))]
    {
      var s := streams[termID];
      if stream == 0 {
        streams := streams[termID := s.(docs := s.docs + Uvarint(n))];
      } else {
        streams := streams[termID := s.(prox := s.prox + Uvarint(n))];
      }
    }

    method WriteBytes(termID: nat, bs: seq<Byte>)
      requires termID < |streams|
      modifies this`streams
      ensures streams == old(streams)[termID := old(streams[termID]).(prox := old(streams[termID]).prox + bs)]
    {
      var s := streams[termID];
      streams := streams[termID := s.(prox := s.prox + bs)];
    }

    /** writeProx: a position's code and the token's payload. */
    method WriteProx(termID: nat, proxCode: nat, token: Token)
      requires termID < |streams|
      modifies this`streams, this`sawPayloads, postings`lastPositions
      ensures var s := old(streams[termID]);
              streams == old(streams)[termID := s.(prox := s.prox + OccBytes(proxCode, token.occ.payload))]
      ensures postings.lastPositions == Set(old(postings.lastPositions), termID, token.occ.position)
      ensures sawPayloads == (old(sawPayloads) || token.occ.payload != [])
    {
      hide Uvarint;
      var payload := token.occ.payload;
      ghost var prox := streams[termID].prox;
      if payload != [] {
        WriteVInt(termID, 1, 2 * proxCode + 1);
        WriteVInt(termID, 1, |payload|);
        WriteBytes(termID, payload);
        Grouped(prox, Uvarint(2 * proxCode + 1), Uvarint(|payload|), payload);
        sawPayloads := true;
      } else {
        WriteVInt(termID, 1, 2 * proxCode);
      }
      postings.SetLastPositions(termID, token.occ.position);
    }

    /** writeOffsets: it reads the term's last offset, which is in the array only if an
        earlier call put it there. */
    method WriteOffsets(termID: nat, token: Token) returns (ok: bool)
      requires termID < |streams| && token.startOffset <= token.endOffset
      requires Value(postings.lastOffsets, termID) <= token.startOffset
      modifies this`streams, postings`lastOffsets
      ensures ok <==> termID < |old(postings.lastOffsets)|
      ensures !ok ==> streams == old(streams) && postings.lastOffsets == old(postings.lastOffsets)
      ensures ok ==> postings.lastOffsets == Set(old(postings.lastOffsets), termID, token.startOffset)
      ensures ok ==> var s := old(streams[termID]);
                     streams == old(streams)[termID := s.(prox := s.prox
                       + (Uvarint(token.startOffset - old(postings.lastOffsets)[termID])
                         + Uvarint(token.endOffset - token.startOffset)))]
    {
      ghost var prox := streams[termID].prox;
      if termID >= |postings.lastOffsets| {
        return false;
      }
      var delta, length := token.startOffset - postings.lastOffsets[termID], token.endOffset - token.startOffset;
      WriteVInt(termID, 1, delta);
      WriteVInt(termID, 1, length);
      Grouped(prox, Uvarint(delta), Uvarint(length), []);
      postings.SetLastOffsets(termID, token.startOffset);
      return true;
    }

    /** NewTerm: the first token of a term. */
    method NewTerm(termID: nat, docID: nat, token: Token) returns (ok: bool)
      requires Sized(termID) && Encoded() && |streams| == termID + 1 && streams[termID] == Streams([], [])
      requires token.startOffset <= token.endOffset
      modifies this`streams, this`sawPayloads, this`maxTermFrequency, this`uniqueTermCount, this`histories, postings
      ensures ok <==> !options.HasOffsets() && !(options.HasProx() && token.termFreq != 1)
      ensures ok ==> Sized(|streams|) && Encoded()
      ensures ok ==> histories == old(histories) + [Feed(options, [], docID, token.termFreq, token.occ)]
      ensures ok ==> |histories[termID]| == 1 && (options.HasFreq() ==> LastFreq(histories[termID]) == token.termFreq)
      ensures ok ==> uniqueTermCount == old(uniqueTermCount) + 1
      ensures ok ==> maxTermFrequency == Max(old(maxTermFrequency), if options.HasFreq() then token.termFreq else 1)
      ensures ok ==> sawPayloads == (old(sawPayloads) || (options.HasProx() && token.occ.payload != []))
    {
      hide Encodes, OccBytes, Feed;
      postings.SetLastDocIDs(termID, docID);
      if !options.HasFreq() {
        postings.SetLastDocCodes(termID, docID);
        maxTermFrequency := Max(1, maxTermFrequency);
      } else {
        postings.SetLastDocCodes(termID, 2 * docID);
        if token.termFreq != 1 && options.HasProx() {
          return false;
        }
        postings.SetTermFreqs(termID, token.termFreq);
        if options.HasProx() {
          WriteProx(termID, token.occ.position, token);
          if options.HasOffsets() {
            ok := WriteOffsets(termID, token);
            if !ok {
              return;
            }
          }
        }
        maxTermFrequency := Max(postings.termFreqs[termID], maxTermFrequency);
      }
      uniqueTermCount := uniqueTermCount + 1;
      ok := true;
      histories := histories + [Feed(options, [], docID, token.termFreq, token.occ)];
      FirstEncodes(options, StateOf(termID), docID, token.termFreq, token.occ);
      FirstFeed(options, docID, token.termFreq, token.occ);
      forall t | 0 <= t < |histories| ensures Encodes(options, StateOf(t), histories[t]) {
        if t < termID {
          assert StateOf(t) == old(StateOf(t)) && old(Encodes(options, StateOf(t), histories[t]));
        }
      }
    }

    /** AddTerm: a further token of a term. No term has offsets, since NewTerm fails for
        them; a refused token may leave the document held back written out all the same. */
    method AddTerm(termID: nat, docID: nat, token: Token) returns (ok: bool)
      requires Sized(|streams|) && Encoded() && termID < |streams| && !options.HasOffsets()
      requires MayFollow(histories[termID], docID, token.occ)
      modifies this`streams, this`sawPayloads, this`maxTermFrequency, this`uniqueTermCount, this`histories, postings
      ensures ok <==> !(token.termFreq != 1 && (options.HasProx() || !options.HasFreq()))
      ensures Sized(|streams|) && |streams| == |old(streams)|
      ensures ok ==> Encoded()
      ensures ok ==>
                histories ==
                  old(histories)[termID := Feed(options, old(histories[termID]), docID, token.termFreq, token.occ)]
      ensures ok ==>
                uniqueTermCount == old(uniqueTermCount) + (if docID != old(StateOf(termID).lastDocID) then 1 else 0)
      ensures ok ==> uniqueTermCount - old(uniqueTermCount) == |histories[termID]| - |old(histories[termID])|
      ensures ok && options.HasFreq() ==> maxTermFrequency == Max(old(maxTermFrequency), LastFreq(histories[termID]))
      ensures ok && !options.HasFreq() ==> maxTermFrequency == old(maxTermFrequency)
      ensures ok ==> sawPayloads == (old(sawPayloads) || (options.HasProx() && token.occ.payload != []))
      ensures !ok ==> histories == old(histories) && OthersKept(termID)
      ensures !ok ==> StateOf(termID) == var s := old(StateOf(termID));
                      if options.HasFreq() && docID != s.lastDocID
                      then s.(docs := s.docs + HeldBytes(options, s))
                      else s
    {
      hide Encodes, Feed, MayFollow, Step, HeldBytes;
      ghost var h, before := histories[termID], StateOf(termID);
      Arrays(options, before, h, docID, token.occ);
      if !options.HasFreq() {
        ok := AddDoc(termID, docID, token);
      } else if docID != postings.lastDocIDs[termID] {
        ok := AddInNextDoc(termID, docID, token);
      } else {
        ok := AddInSameDoc(termID, docID, token);
      }
      if ok {
        StepEncodes(options, before, h, StateOf(termID), docID, token.termFreq, token.occ);
        histories := histories[termID := Feed(options, h, docID, token.termFreq, token.occ)];
        forall t | 0 <= t < |histories| ensures Encodes(options, StateOf(t), histories[t]) {
          if t != termID {
            assert StateOf(t) == old(StateOf(t)) && old(Encodes(options, StateOf(t), histories[t]));
          }
        }
      }
    }

    /** AddTerm where frequencies are not recorded. */
    method AddDoc(termID: nat, docID: nat, token: Token) returns (ok: bool)
      requires Sized(|streams|) && termID < |streams| && options == Docs
      requires postings.lastDocCodes[termID] >= 0 && 0 <= postings.lastDocIDs[termID] <= docID
      modifies this`streams, this`uniqueTermCount, postings
      ensures ok <==> token.termFreq == 1
      ensures Sized(|streams|) && |streams| == |old(streams)| && OthersKept(termID)
      ensures !ok ==> StateOf(termID) == old(StateOf(termID))
      ensures ok ==> Step(options, old(StateOf(termID)), StateOf(termID), docID, token.termFreq, token.occ)
      ensures ok ==>
                uniqueTermCount == old(uniqueTermCount) + (if docID != old(postings.lastDocIDs[termID]) then 1 else 0)
    {
      hide Uvarint;
      var last := postings.lastDocIDs[termID];
      if token.termFreq != 1 {
        return false;
      }
      if docID != last {
        WriteVInt(termID, 0, postings.lastDocCodes[termID]);
        postings.SetLastDocCodes(termID, docID - last);
        postings.SetLastDocIDs(termID, docID);
        uniqueTermCount := uniqueTermCount + 1;
      }
      return true;
    }

    /** AddTerm in a document later than the term's last. */
    method AddInNextDoc(termID: nat, docID: nat, token: Token) returns (ok: bool)
      requires Sized(|streams|) && termID < |streams| && options.HasFreq() && !options.HasOffsets()
      requires postings.lastDocCodes[termID] >= 0 && postings.termFreqs[termID] >= 0
      requires 0 <= postings.lastDocIDs[termID] < docID
      modifies this`streams, this`sawPayloads, this`maxTermFrequency, this`uniqueTermCount, postings
      ensures ok <==> !(token.termFreq != 1 && options.HasProx())
      ensures Sized(|streams|) && |streams| == |old(streams)| && OthersKept(termID)
      ensures !ok ==> StateOf(termID) == var s := old(StateOf(termID)); s.(docs := s.docs + HeldBytes(options, s))
      ensures ok ==> Step(options, old(StateOf(termID)), StateOf(termID), docID, token.termFreq, token.occ)
      ensures ok ==> uniqueTermCount == old(uniqueTermCount) + 1
      ensures ok ==> maxTermFrequency == Max(old(maxTermFrequency), token.termFreq)
      ensures ok ==> sawPayloads == (old(sawPayloads) || (options.HasProx() && token.occ.payload != []))
    {
      hide OccBytes, HeldBytes;
      var last := postings.lastDocIDs[termID];
      WriteHeldBack(termID);
      if token.termFreq != 1 && options.HasProx() {
        return false;
      }
      postings.SetTermFreqs(termID, token.termFreq);
      maxTermFrequency := Max(postings.termFreqs[termID], maxTermFrequency);
      postings.lastDocCodes := postings.lastDocCodes[termID := 2 * (docID - last)];
      postings.lastDocIDs := postings.lastDocIDs[termID := docID];
      if options.HasProx() {
        WriteProx(termID, token.occ.position, token);
      }
      uniqueTermCount := uniqueTermCount + 1;
      return true;
    }

    /** AddTerm in the term's last document. */
    method AddInSameDoc(termID: nat, docID: nat, token: Token) returns (ok: bool)
      requires Sized(|streams|) && termID < |streams| && options.HasFreq() && !options.HasOffsets()
      requires postings.lastDocIDs[termID] == docID && postings.termFreqs[termID] >= 0
      requires options.HasProx() ==> postings.lastPositions[termID] <= token.occ.position
      modifies this`streams, this`sawPayloads, this`maxTermFrequency, postings
      ensures ok <==> !(token.termFreq != 1 && options.HasProx())
      ensures Sized(|streams|) && |streams| == |old(streams)| && OthersKept(termID)
      ensures !ok ==> StateOf(termID) == old(StateOf(termID))
      ensures ok ==> Step(options, old(StateOf(termID)), StateOf(termID), docID, token.termFreq, token.occ)
      ensures ok ==> maxTermFrequency == Max(old(maxTermFrequency), old(postings.termFreqs[termID]) + token.termFreq)
      ensures ok ==> sawPayloads == (old(sawPayloads) || (options.HasProx() && token.occ.payload != []))
    {
      hide OccBytes, HeldBytes;
      if token.termFreq != 1 && options.HasProx() {
        return false;
      }
      postings.SetTermFreqs(termID, postings.termFreqs[termID] + token.termFreq);
      maxTermFrequency := Max(maxTermFrequency, postings.termFreqs[termID]);
      if options.HasProx() {
        WriteProx(termID, token.occ.position - postings.lastPositions[termID], token);
      }
      return true;
    }

    /** Only the state of one term changes. */
    twostate predicate OthersKept(t: nat)
      reads this, postings
    {
      forall u: nat | u < |streams| && u != t :: StateOf(u) == old(StateOf(u))
    }

    /** What completes the document held back goes to stream 0. */
    method WriteHeldBack(termID: nat)
      requires termID < |streams| && options.HasFreq()
      requires Value(postings.lastDocCodes, termID) >= 0 && Value(postings.termFreqs, termID) >= 0
      requires termID < |postings.lastDocCodes| && termID < |postings.termFreqs|
      modifies this`streams
      ensures streams == old(streams)[termID := old(streams[termID]).(docs :=
                           old(streams[termID]).docs + HeldBytes(options, old(StateOf(termID))))]
    {
      if 1 == postings.termFreqs[termID] {
        WriteVInt(termID, 0, Flagged(postings.lastDocCodes[termID]));
      } else {
        ghost var docs := streams[termID].docs;
        WriteVInt(termID, 0, postings.lastDocCodes[termID]);
        WriteVInt(termID, 0, postings.termFreqs[termID]);
        Grouped(docs, Uvarint(postings.lastDocCodes[termID]), Uvarint(postings.termFreqs[termID]), []);
      }
    }

    /** Add: a token of a term, which the hash knows or numbers. */
    method Add(term: seq<Byte>, docID: nat, token: Token) returns (ok: bool)
      requires Valid() && token.startOffset <= token.endOffset
      requires MayFollow(HistoryOf(term), docID, token.occ)
      modifies this, postings
      ensures ok <==>
                && !options.HasOffsets()
                && (token.termFreq == 1 || options == Freqs || (options == Docs && term !in old(bytesHash)))
      ensures ok ==> Valid() && HistoryOf(term) == Feed(options, old(HistoryOf(term)), docID, token.termFreq, token.occ)
      ensures ok ==> forall other | other != term :: HistoryOf(other) == old(HistoryOf(other))
      ensures ok ==> uniqueTermCount - old(uniqueTermCount) == |HistoryOf(term)| - |old(HistoryOf(term))|
      ensures ok && options.HasFreq() ==> maxTermFrequency == Max(old(maxTermFrequency), LastFreq(HistoryOf(term)))
      ensures ok ==> sawPayloads == (old(sawPayloads) || (options.HasProx() && token.occ.payload != []))
    {
      hide Encodes, MayFollow, HeldBytes, Feed;
      if term in bytesHash {
        var termID := bytesHash[term];
        assert histories[termID] == HistoryOf(term);
        ok := AddTerm(termID, docID, token);
      } else {
        var termID := |streams|;
        bytesHash := bytesHash[term := termID];
        streams := streams + [Streams([], [])];
        assert Encoded() by {
          forall t | 0 <= t < |histories| ensures Encodes(options, StateOf(t), histories[t]) {
            assert StateOf(t) == old(StateOf(t)) && old(Encodes(options, StateOf(t), histories[t]));
          }
        }
        ok := NewTerm(termID, docID, token);
      }
    }

    /** Reading a term's postings, at any moment: the streams and the document held back
        give the whole history. */
    lemma Postings(term: seq<Byte>)
      requires Valid() && term in bytesHash && Fits(HistoryOf(term))
      ensures Decode(options, StateOf(bytesHash[term])) == Some(HistoryOf(term))
    {
      NothingIsLost(options, StateOf(bytesHash[term]), HistoryOf(term));
    }
  }

  lemma FirstFeed(o: Options, doc: nat, freq: nat, occ: Occurrence)
    ensures var h := Feed(o, [], doc, freq, occ); |h| == 1 && (o.HasFreq() ==> LastFreq(h) == freq)
  {
  }

  lemma Arrays(o: Options, s: TermState, h: seq<Entry>, doc: nat, occ: Occurrence)
    requires Encodes(o, s, h) && MayFollow(h, doc, occ)
    ensures h != [] && 0 <= s.lastDocID <= doc && s.lastDocCode >= 0 && (o.HasFreq() ==> s.termFreq >= 0)
    ensures o.HasProx() && s.lastDocID == doc ==> s.lastPosition <= occ.position
  {
  }

  lemma EncodesLast(o: Options, s: TermState, h: seq<Entry>)
    requires Encodes(o, s, h)
    ensures h != [] && s.lastDocID == h[|h| - 1].doc && (o.HasFreq() ==> s.termFreq == h[|h| - 1].freq)
  {
  }

  /** What a further token does to the state of its term. */
  ghost predicate Step(o: Options, s: TermState, s': TermState, doc: nat, freq: nat, occ: Occurrence) {
    if doc == s.lastDocID then
      && s'.docs == s.docs && s'.lastDocCode == s.lastDocCode && s'.lastDocID == s.lastDocID
      && (o.HasFreq() ==> s'.termFreq == s.termFreq + freq)
      && (o.HasProx() ==> s.lastPosition <= occ.position && s'.lastPosition == occ.position
                          && s'.prox == s.prox + OccBytes(occ.position - s.lastPosition, occ.payload))
    else
      && s.lastDocID < doc && s.lastDocCode >= 0 && s.termFreq >= 0
      && s'.docs == s.docs + HeldBytes(o, s) && s'.lastDocID == doc
      && s'.lastDocCode == DocCode(o, doc - s.lastDocID)
      && (o.HasFreq() ==> s'.termFreq == freq)
      && (o.HasProx() ==> s'.prox == s.prox + OccBytes(occ.position, occ.payload) && s'.lastPosition == occ.position)
  }

  lemma StepEncodes(o: Options, s: TermState, h: seq<Entry>, s': TermState, doc: nat, freq: nat, occ: Occurrence)
    requires Encodes(o, s, h) && MayFollow(h, doc, occ) && (o.HasProx() ==> freq == 1)
    requires Step(o, s, s', doc, freq, occ)
    ensures Encodes(o, s', Feed(o, h, doc, freq, occ))
    ensures |Feed(o, h, doc, freq, occ)| == |h| + (if doc == s.lastDocID then 0 else 1)
    ensures o.HasFreq() ==>
              LastFreq(Feed(o, h, doc, freq, occ)) == if doc == s.lastDocID then s.termFreq + freq else freq
  {
    hide OccBytes, HeldBytes, Encodes;
    EncodesLast(o, s, h);
    if doc == s.lastDocID {
      SameDocEncodes(o, s, h, s', freq, occ);
    } else {
      NextDocEncodes(o, s, h, s', doc, freq, occ);
    }
  }

  lemma Grouped(a: seq<Byte>, b: seq<Byte>, c: seq<Byte>, d: seq<Byte>)
    ensures a + b + c + d == a + (b + (c + d))
    ensures d == [] ==> a + b + c == a + (b + c)
  {
  }

  // Whole runs

  datatype Fed = Fed(term: seq<Byte>, doc: nat, token: Token)

  /** The history of a term after these tokens. */
  function HistoryAfter(o: Options, tokens: seq<Fed>, term: seq<Byte>): seq<Entry> {
    if tokens == [] then []
    else
      var before, last := HistoryAfter(o, tokens[..|tokens| - 1], term), tokens[|tokens| - 1];
      if last.term == term then Feed(o, before, last.doc, last.token.termFreq, last.token.occ) else before
  }

  /** The documents and positions of a term among these tokens. */
  function TokensOf(tokens: seq<Fed>, term: seq<Byte>): seq<(nat, Occurrence)> {
    if tokens == [] then []
    else
      var last := tokens[|tokens| - 1];
      TokensOf(tokens[..|tokens| - 1], term) + if last.term == term then [(last.doc, last.token.occ)] else []
  }

  /** The occurrences that a history lists. */
  function Listed(h: seq<Entry>): seq<(nat, Occurrence)> {
    if h == [] then [] else Listed(h[..|h| - 1]) + ListedIn(h[|h| - 1])
  }

  function ListedIn(e: Entry): seq<(nat, Occurrence)> {
    seq(|e.occs|, i requires 0 <= i < |e.occs| => (e.doc, e.occs[i]))
  }

  lemma FeedLists(o: Options, h: seq<Entry>, doc: nat, freq: nat, occ: Occurrence)
    requires o.HasProx()
    ensures Listed(Feed(o, h, doc, freq, occ)) == Listed(h) + [(doc, occ)]
  {
    var n := |h| - 1;
    var h' := Feed(o, h, doc, freq, occ);
    var e := h'[|h'| - 1];
    if h == [] || h[n].doc != doc {
      assert h'[..|h|] == h && ListedIn(e) == [(doc, occ)];
    } else {
      assert h'[..n] == h[..n] && ListedIn(e) == ListedIn(h[n]) + [(doc, occ)];
    }
  }

  /** A history lists exactly the tokens of the term, in order. */
  lemma {:induction false} HistoryLists(o: Options, tokens: seq<Fed>, term: seq<Byte>)
    requires o.HasProx()
    ensures Listed(HistoryAfter(o, tokens, term)) == TokensOf(tokens, term)
  {
    if tokens != [] {
      var init, last := tokens[..|tokens| - 1], tokens[|tokens| - 1];
      HistoryLists(o, init, term);
      if last.term == term {
        FeedLists(o, HistoryAfter(o, init, term), last.doc, last.token.termFreq, last.token.occ);
      }
    }
  }

  /** The i-th token may come after those before it, and is not refused. */
  ghost predicate Accepted(o: Options, tokens: seq<Fed>, i: nat)
    requires i < |tokens|
  {
    var t := tokens[i];
    && t.token.startOffset <= t.token.endOffset && (t.token.termFreq == 1 || o == Freqs) && !o.HasOffsets()
    && MayFollow(HistoryAfter(o, tokens[..i], t.term), t.doc, t.token.occ)
  }

  /** The documents of a term among these tokens. */
  function DocsOf(tokens: seq<Fed>, term: seq<Byte>): set<nat> {
    set t | t in tokens && t.term == term :: t.doc
  }

  /** How often a term is in a document, by these tokens. */
  function Times(tokens: seq<Fed>, term: seq<Byte>, doc: nat): nat {
    if tokens == [] then 0
    else
      var last := tokens[|tokens| - 1];
      Times(tokens[..|tokens| - 1], term, doc) + if last.term == term && last.doc == doc then last.token.termFreq else 0
  }

  function EntryDocs(h: seq<Entry>): set<nat> {
    set e | e in h :: e.doc
  }

  /** The entries are for these documents, each once and in order, with these frequencies. */
  ghost predicate Counts(o: Options, h: seq<Entry>, docs: set<nat>, times: nat -> nat) {
    && EntryDocs(h) == docs
    && (forall i, j | 0 <= i < j < |h| :: h[i].doc < h[j].doc)
    && (forall i | 0 <= i < |h| :: h[i].freq == if o.HasFreq() then times(h[i].doc) else 1)
  }

  lemma DocsOn(h: seq<Entry>, k: nat, e: Entry)
    requires k <= |h| <= k + 1 && (|h| == k + 1 ==> h[k].doc == e.doc)
    ensures EntryDocs(h[..k] + [e]) == EntryDocs(h) + {e.doc}
  {
    assert h == h[..k] || h == h[..k] + [h[k]];
  }

  /** Other documents keep their entries; the last entry is new or counts further. */
  lemma CountsOn(o: Options, h: seq<Entry>, docs: set<nat>, times: nat -> nat, times': nat -> nat, k: nat, e: Entry)
    requires Counts(o, h, docs, times) && k <= |h| <= k + 1
    requires |h| == k + 1 ==> h[k].doc == e.doc
    requires forall i | 0 <= i < k :: h[i].doc < e.doc
    requires forall d: nat | d != e.doc :: times'(d) == times(d)
    requires e.freq == if o.HasFreq() then times'(e.doc) else 1
    ensures Counts(o, h[..k] + [e], docs + {e.doc}, times')
  {
    DocsOn(h, k, e);
    hide EntryDocs;
  }

  lemma FeedCounts(o: Options, h: seq<Entry>, docs: set<nat>, times: nat -> nat, times': nat -> nat,
                   doc: nat, freq: nat, occ: Occurrence)
    requires Counts(o, h, docs, times) && MayFollow(h, doc, occ)
    requires doc !in docs ==> times(doc) == 0
    requires forall d: nat :: times'(d) == times(d) + if d == doc then freq else 0
    ensures Counts(o, Feed(o, h, doc, freq, occ), docs + {doc}, times')
  {
    var n, h' := |h| - 1, Feed(o, h, doc, freq, occ);
    var e := h'[|h'| - 1];
    if h == [] || h[n].doc != doc {
      assert h[..|h|] == h;
      assert doc !in docs;
      CountsOn(o, h, docs, times, times', |h|, e);
    } else {
      hide MayFollow;
      CountsOn(o, h, docs, times, times', n, e);
    }
  }

  lemma {:induction false} NeverThere(tokens: seq<Fed>, term: seq<Byte>, doc: nat)
    requires doc !in DocsOf(tokens, term)
    ensures Times(tokens, term, doc) == 0
  {
    if tokens != [] {
      assert tokens[|tokens| - 1] in tokens;
      NeverThere(tokens[..|tokens| - 1], term, doc);
    }
  }

  /** A history has one entry for each document of the term, in order, with the sum of the
      frequencies of its tokens there. */
  lemma {:induction false} HistoryCounts(o: Options, tokens: seq<Fed>, term: seq<Byte>)
    requires forall i | 0 <= i < |tokens| :: Accepted(o, tokens, i)
    ensures Counts(o, HistoryAfter(o, tokens, term), DocsOf(tokens, term), doc => Times(tokens, term, doc))
  {
    hide MayFollow, Feed;
    if tokens != [] {
      var n := |tokens| - 1;
      var init, last := tokens[..n], tokens[n];
      forall i | 0 <= i < n ensures Accepted(o, init, i) {
        assert Accepted(o, tokens, i) && init[..i] == tokens[..i];
      }
      HistoryCounts(o, init, term);
      assert tokens == init + [last] && Accepted(o, tokens, n);
      var times: nat -> nat := doc => Times(init, term, doc);
      if last.term == term {
        if last.doc !in DocsOf(init, term) {
          NeverThere(init, term, last.doc);
        }
        assert DocsOf(tokens, term) == DocsOf(init, term) + {last.doc};
        FeedCounts(o, HistoryAfter(o, init, term), DocsOf(init, term), times, doc => Times(tokens, term, doc),
                   last.doc, last.token.termFreq, last.token.occ);
      } else {
        assert DocsOf(tokens, term) == DocsOf(init, term);
      }
    }
  }

  /** Any run of tokens, and the postings of a term after it: one entry for each document of
      the term with its frequency there and, with positions, exactly the occurrences of the
      term among the tokens. */
  method FeedAndRead(o: Options, tokens: seq<Fed>, term: seq<Byte>) returns (f: FreqProxTermsWriterPerField)
    requires forall i | 0 <= i < |tokens| :: Accepted(o, tokens, i)
    requires Fits(HistoryAfter(o, tokens, term))
    ensures f.Valid() && f.options == o
    ensures term in f.bytesHash ==>
              Decode(o, f.StateOf(f.bytesHash[term])) == Some(HistoryAfter(o, tokens, term))
    ensures term !in f.bytesHash ==> HistoryAfter(o, tokens, term) == []
    ensures Counts(o, HistoryAfter(o, tokens, term), DocsOf(tokens, term), doc => Times(tokens, term, doc))
    ensures o.HasProx() ==> Listed(HistoryAfter(o, tokens, term)) == TokensOf(tokens, term)
  {
    hide MayFollow, Encodes, Feed, Decode, HistoryAfter, Counts;
    HistoryCounts(o, tokens, term);
    f := new FreqProxTermsWriterPerField(o);
    forall x ensures HistoryAfter(o, tokens[..0], x) == [] {
      NoHistory(o, tokens, x);
    }
    var i := 0;
    while i < |tokens|
      invariant 0 <= i <= |tokens| && f.Valid() && f.options == o && fresh(f) && fresh(f.postings)
      invariant forall x :: f.HistoryOf(x) == HistoryAfter(o, tokens[..i], x)
    {
      var t := tokens[i];
      assert Accepted(o, tokens, i);
      var ok := f.Add(t.term, t.doc, t.token);
      forall x ensures f.HistoryOf(x) == HistoryAfter(o, tokens[..i + 1], x) {
        HistoryNext(o, tokens, i, x);
      }
      i := i + 1;
    }
    assert tokens[..i] == tokens;
    assert f.HistoryOf(term) == HistoryAfter(o, tokens, term);
    if term in f.bytesHash {
      f.Postings(term);
    }
    if o.HasProx() {
      HistoryLists(o, tokens, term);
    }
  }

  lemma NoHistory(o: Options, tokens: seq<Fed>, term: seq<Byte>)
    ensures HistoryAfter(o, tokens[..0], term) == []
  {
  }

  lemma HistoryNext(o: Options, tokens: seq<Fed>, i: nat, term: seq<Byte>)
    requires i < |tokens|
    ensures var before, t := HistoryAfter(o, tokens[..i], term), tokens[i];
            HistoryAfter(o, tokens[..i + 1], term) ==
            if t.term == term then Feed(o, before, t.doc, t.token.termFreq, t.token.occ) else before
  {
    assert tokens[..i + 1][..i] == tokens[..i];
  }
}
