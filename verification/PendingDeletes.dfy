/** Deletes of a segment that are not on disk yet, hard ones and soft ones
    (core/index/pendingdeletes.go, pendingsoftdeletes.go). */
module PendingDeletes {

  /** A bit set, as the set of the positions of its ones. */
  class BitSet {
    var bits: set<nat>

    constructor (bits: set<nat>)
      ensures this.bits == bits
    {
      this.bits := bits;
    }

    method Clone() returns (b: BitSet)
      ensures fresh(b) && b.bits == bits
    {
      b := new BitSet(bits);
    }

    predicate Test(i: nat)
      reads this
    {
      i in bits
    }

    method Clear(i: nat)
      modifies this
      ensures bits == old(bits) - {i}
    {
      bits := bits - {i};
    }

    method Set(i: nat)
      modifies this
      ensures bits == old(bits) + {i}
    {
      bits := bits + {i};
    }
  }

  function Docs(maxDoc: nat): (s: set<nat>)
    ensures forall i: nat :: i in s <==> i < maxDoc
  {
    if maxDoc == 0 then {} else Docs(maxDoc - 1) + {maxDoc - 1}
  }

  lemma {:induction false} DocsSize(maxDoc: nat)
    ensures |Docs(maxDoc)| == maxDoc
  {
    if maxDoc > 0 {
      DocsSize(maxDoc - 1);
    }
  }

  class SegmentCommitInfo {
    const maxDoc: nat
    var delCount: int
    var softDelCount: int
    var delGen: int
    var nextWriteDelGen: int
    /** The live documents that the last written file holds. */
    ghost var written: set<nat>

    constructor (maxDoc: nat, delCount: int, softDelCount: int, delGen: int)
      ensures this.maxDoc == maxDoc && this.delCount == delCount && this.softDelCount == softDelCount
      ensures this.delGen == delGen && nextWriteDelGen == if delGen == -1 then 1 else delGen + 1
    {
      this.maxDoc, this.delCount, this.softDelCount, this.delGen := maxDoc, delCount, softDelCount, delGen;
      nextWriteDelGen := if delGen == -1 then 1 else delGen + 1;
      written := Docs(maxDoc);
    }

    method AdvanceDelGen()
      modifies this`delGen, this`nextWriteDelGen
      ensures delGen == old(nextWriteDelGen) && nextWriteDelGen == delGen + 1
    {
      delGen := nextWriteDelGen;
      nextWriteDelGen := delGen + 1;
    }
  }

  class PendingDeletes {
    const info: SegmentCommitInfo
    var liveDocs: BitSet?
    var writeableLiveDocs: BitSet?
    var pendingDeleteCount: int

    /** The documents that are alive: all, as long as there are no bits. */
    ghost function Live(): set<nat>
      reads this, liveDocs
    {
      if liveDocs == null then Docs(info.maxDoc) else liveDocs.bits
    }

    ghost predicate Valid()
      reads this, liveDocs
    {
      Live() <= Docs(info.maxDoc) && (writeableLiveDocs != null ==> liveDocs == writeableLiveDocs)
    }

    /** NewPendingDeletesV2. */
    constructor (info: SegmentCommitInfo, liveDocs: BitSet?)
      requires liveDocs != null ==> liveDocs.bits <= Docs(info.maxDoc)
      ensures Valid() && this.info == info && this.liveDocs == liveDocs
      ensures writeableLiveDocs == null && pendingDeleteCount == 0
    {
      this.info, this.liveDocs, writeableLiveDocs, pendingDeleteCount := info, liveDocs, null, 0;
    }

    /** GetMutableBits: the bits that may be changed, a private copy of those a reader
        may share. */
    method GetMutableBits() returns (b: BitSet)
      requires Valid()
      modifies this`liveDocs, this`writeableLiveDocs
      ensures Valid() && Live() == old(Live()) && b == writeableLiveDocs
      ensures if old(writeableLiveDocs) == null then fresh(b) else b == old(writeableLiveDocs)
    {
      if writeableLiveDocs == null {
        if liveDocs != null {
          writeableLiveDocs := liveDocs.Clone();
        } else {
          writeableLiveDocs := new BitSet(Docs(info.maxDoc));
        }
        liveDocs := writeableLiveDocs;
      }
      return writeableLiveDocs;
    }

    method Delete(docID: nat) returns (didDelete: bool)
      requires Valid()
      modifies this, writeableLiveDocs
      ensures Valid() && Live() == old(Live()) - {docID} && didDelete == (docID in old(Live()))
      ensures pendingDeleteCount - old(pendingDeleteCount) == |old(Live())| - |Live()|
      ensures if old(writeableLiveDocs) == null then fresh(writeableLiveDocs)
              else writeableLiveDocs == old(writeableLiveDocs)
    {
      var mutableBits := GetMutableBits();
      didDelete := mutableBits.Test(docID);
      if didDelete {
        mutableBits.Clear(docID);
        pendingDeleteCount := pendingDeleteCount + 1;
      }
    }

    /** GetLiveDocs. */
    function GetLiveDocs(): BitSet?
      reads this
    {
      liveDocs
    }

    method DropChanges()
      modifies this`pendingDeleteCount
      ensures pendingDeleteCount == 0
    {
      pendingDeleteCount := 0;
    }

    /** WriteLiveDocs: true if there was something to write, which is all live documents
        under the next generation. */
    method WriteLiveDocs() returns (wrote: bool)
      requires Valid()
      modifies this`pendingDeleteCount, info
      ensures Valid() && wrote == (old(pendingDeleteCount) != 0) && pendingDeleteCount == 0
      ensures info.delCount == old(info.delCount) + old(pendingDeleteCount)
              && info.softDelCount == old(info.softDelCount)
      ensures wrote ==>
                info.written == Live() && info.delGen == old(info.nextWriteDelGen)
                  && info.nextWriteDelGen == info.delGen + 1
      ensures !wrote ==> info.written == old(info.written) && info.delGen == old(info.delGen)
                         && info.nextWriteDelGen == old(info.nextWriteDelGen)
    {
      if pendingDeleteCount == 0 {
        return false;
      }
      info.written := Live();
      info.AdvanceDelGen();
      info.delCount := info.delCount + pendingDeleteCount;
      DropChanges();
      return true;
    }

    /** GetDelCount, which counts the pending deletes of this object alone. */
    function GetDelCount(): int
      reads this, info
    {
      info.delCount + info.softDelCount + pendingDeleteCount
    }

    function NumDocs(): int
      reads this, info
    {
      info.maxDoc - GetDelCount()
    }

    predicate IsFullyDeleted()
      reads this, info
    {
      GetDelCount() == info.maxDoc
    }
  }

  /** The live docs that were handed out keep what they held through a later delete
      exactly when the bits were not private yet, or the document was dead. */
  method DeleteAfterSnapshot(p: PendingDeletes, docID: nat) returns (snapshot: BitSet?)
    requires p.Valid()
    modifies p, p.writeableLiveDocs
    ensures snapshot == old(p.liveDocs)
    ensures snapshot != null ==>
              (snapshot.bits == old(p.Live()) <==> old(p.writeableLiveDocs) == null || docID !in old(p.Live()))
  {
    snapshot := p.GetLiveDocs();
    var _ := p.Delete(docID);
  }

  // Soft deletes

  /** Bits and counts of a segment: on disk, alive in either sense, and pending. */
  datatype Deletes = Deletes(delCount: int, softDelCount: int, delGen: int, nextGen: int, written: set<nat>,
                             live: set<nat>, hardLive: set<nat>, pending: int, hardPending: int, dvGeneration: int)

  function Without(s: set<nat>, x: nat, remove: bool): set<nat> {
    if remove then s - {x} else s
  }

  /** Each of these documents in turn changes sides. */
  function Toggled(bits: set<nat>, docs: seq<nat>): set<nat> {
    if docs == [] then bits
    else
      var before, doc := Toggled(bits, docs[..|docs| - 1]), docs[|docs| - 1];
      if doc in before then before - {doc} else before + {doc}
  }

  ghost predicate Distinct(docs: seq<nat>) {
    forall i, j | 0 <= i < j < |docs| :: docs[i] != docs[j]
  }

  /** Toggling distinct documents: those alive die, the others come back. */
  lemma {:induction false} ToggledDistinct(bits: set<nat>, docs: seq<nat>)
    requires Distinct(docs)
    ensures forall d :: d in Toggled(bits, docs) <==> (d in bits) != (d in docs)
  {
    if docs != [] {
      var n := |docs| - 1;
      ToggledDistinct(bits, docs[..n]);
      assert docs == docs[..n] + [docs[n]];
      assert docs[n] !in docs[..n];
    }
  }

  lemma ToggledNext(bits: set<nat>, docs: seq<nat>, i: nat)
    requires i < |docs|
    ensures var before := Toggled(bits, docs[..i]);
            Toggled(bits, docs[..i + 1]) == if docs[i] in before then before - {docs[i]} else before + {docs[i]}
  {
    assert docs[..i + 1][..i] == docs[..i];
  }

  lemma {:induction false} ToggledWithin(bits: set<nat>, docs: seq<nat>, whole: set<nat>)
    requires bits <= whole && forall i | 0 <= i < |docs| :: docs[i] in whole
    ensures Toggled(bits, docs) <= whole
  {
    if docs != [] {
      ToggledWithin(bits, docs[..|docs| - 1], whole);
    }
  }

  /** Live documents stay within others through toggling exactly when all toggled are there. */
  lemma ToggledWithinIff(live: set<nat>, docs: seq<nat>, hard: set<nat>)
    requires live <= hard && Distinct(docs)
    ensures Toggled(live, docs) <= hard <==> forall i | 0 <= i < |docs| :: docs[i] in hard
  {
    ToggledDistinct(live, docs);
    if Toggled(live, docs) <= hard {
      forall i | 0 <= i < |docs| ensures docs[i] in hard {
        assert docs[i] in live || docs[i] in Toggled(live, docs);
      }
    }
  }

  // What the operations do to bits and counts

  /** A hard delete of a document that was deleted softly takes one pending soft delete
      for a pending hard one. */
  function Deleted(s: Deletes, doc: nat): Deletes {
    if doc !in s.hardLive then s
    else s.(hardLive := s.hardLive - {doc}, hardPending := s.hardPending + 1, live := s.live - {doc},
            pending := s.pending - if doc in s.live then 0 else 1)
  }

  /** What is pending softly goes to the commit at once. */
  ghost function Updated(s: Deletes, docs: seq<nat>): Deletes {
    var live := Toggled(s.live, docs);
    s.(live := live, softDelCount := s.softDelCount + s.pending + (|s.live| - |live|), pending := 0)
  }

  function Wrote(s: Deletes): Deletes {
    var soft := s.(softDelCount := s.softDelCount + s.pending, pending := 0);
    if s.hardPending == 0 then soft
    else soft.(written := s.hardLive, delGen := s.nextGen, nextGen := s.nextGen + 1,
               delCount := s.delCount + s.hardPending, hardPending := 0)
  }

  function Dropped(s: Deletes): Deletes {
    s.(hardPending := 0)
  }

  /** How many hard-dead documents are not counted, on disk or pending. */
  ghost function HardShort(maxDoc: nat, s: Deletes): int {
    maxDoc - |s.hardLive| - (s.delCount + s.hardPending)
  }

  /** How many dead documents are not counted, hard or soft. */
  ghost function Short(maxDoc: nat, s: Deletes): int {
    maxDoc - |s.live| - (s.delCount + s.softDelCount + s.pending + s.hardPending)
  }

  /** Hard deletes, updates and writes count every document that dies, once. */
  lemma DeleteKeepsCounts(maxDoc: nat, s: Deletes, doc: nat)
    ensures HardShort(maxDoc, Deleted(s, doc)) == HardShort(maxDoc, s)
    ensures Short(maxDoc, Deleted(s, doc)) == Short(maxDoc, s)
    ensures Deleted(s, doc).hardLive == s.hardLive - {doc}
    ensures s.live <= s.hardLive ==> Deleted(s, doc).live <= Deleted(s, doc).hardLive
  {
    assert doc !in s.hardLive ==> s.hardLive - {doc} == s.hardLive;
    assert doc !in s.live ==> s.live - {doc} == s.live;
  }

  lemma UpdateKeepsCounts(maxDoc: nat, s: Deletes, docs: seq<nat>)
    ensures HardShort(maxDoc, Updated(s, docs)) == HardShort(maxDoc, s)
    ensures Short(maxDoc, Updated(s, docs)) == Short(maxDoc, s)
  {
    hide Toggled;
  }

  lemma WriteKeepsCounts(maxDoc: nat, s: Deletes)
    ensures HardShort(maxDoc, Wrote(s)) == HardShort(maxDoc, s) && Short(maxDoc, Wrote(s)) == Short(maxDoc, s)
    ensures Wrote(s).pending + Wrote(s).hardPending == 0
  {
  }

  /** Dropping the changes forgets the pending hard deletes in both counts, and nothing else:
      the soft ones stay pending, and the next write has nothing hard to write. */
  lemma DropForgets(maxDoc: nat, s: Deletes)
    ensures HardShort(maxDoc, Dropped(s)) == HardShort(maxDoc, s) + s.hardPending
    ensures Short(maxDoc, Dropped(s)) == Short(maxDoc, s) + s.hardPending
    ensures var next := Wrote(Dropped(s));
            && next.delCount == s.delCount && next.delGen == s.delGen && next.written == s.written
            && next.softDelCount == s.softDelCount + s.pending && next.live == s.live && next.hardLive == s.hardLive
  {
  }

  /** applySoftDeletes, over the documents that the iterator delivers: the number of
      documents that died less those that came back. */
  method ApplySoftDeletes(docs: seq<nat>, b: BitSet) returns (newDeletes: int)
    modifies b
    ensures b.bits == Toggled(old(b.bits), docs)
    ensures newDeletes == |old(b.bits)| - |b.bits|
  {
    ghost var bits := b.bits;
    newDeletes := 0;
    var i := 0;
    while i < |docs|
      invariant 0 <= i <= |docs| && b.bits == Toggled(bits, docs[..i]) && newDeletes == |bits| - |b.bits|
    {
      ToggledNext(bits, docs, i);
      if b.Test(docs[i]) {
        b.Clear(docs[i]);
        newDeletes := newDeletes + 1;
      } else {
        b.Set(docs[i]);
        newDeletes := newDeletes - 1;
      }
      i := i + 1;
    }
    assert docs[..i] == docs;
  }

  /** applySoftDeletes as it stands: the loop never advances its iterator, so as long as
      that has a value, the same document changes sides in every round. */
  method ApplyWithoutAdvancing(hasValue: bool, doc: nat, b: BitSet, rounds: nat) returns (done: bool)
    modifies b
    ensures done <==> !hasValue
    ensures b.bits == Toggled(old(b.bits), seq(if hasValue then rounds else 0, _ => doc))
  {
    ghost var bits := b.bits;
    var i := 0;
    while hasValue && i < rounds
      invariant 0 <= i <= rounds && (!hasValue ==> i == 0) && b.bits == Toggled(bits, seq(i, _ => doc))
    {
      ghost var docs := seq(i + 1, _ => doc);
      ToggledNext(bits, docs, i);
      assert docs[..i] == seq(i, _ => doc) && docs[..i + 1] == docs;
      if b.Test(doc) {
        b.Clear(doc);
      } else {
        b.Set(doc);
      }
      i := i + 1;
    }
    return !hasValue;
  }

  class PendingSoftDeletes {
    const info: SegmentCommitInfo
    const pending: PendingDeletes
    const hardDeletes: PendingDeletes
    const field: string
    var dvGeneration: int

    /** The bits of the two are changed apart. */
    ghost predicate Valid()
      reads this, pending, hardDeletes, pending.liveDocs, hardDeletes.liveDocs
    {
      && pending != hardDeletes && pending.info == hardDeletes.info == info
      && pending.Valid() && hardDeletes.Valid()
      && (pending.writeableLiveDocs != null ==> pending.writeableLiveDocs != hardDeletes.liveDocs)
      && (hardDeletes.writeableLiveDocs != null ==> hardDeletes.writeableLiveDocs != pending.liveDocs)
    }

    /** A document that is alive is not deleted in the hard way either. */
    ghost predicate Within()
      reads this, pending, hardDeletes, pending.liveDocs, hardDeletes.liveDocs
    {
      pending.Live() <= hardDeletes.Live()
    }

    ghost function Seen(): Deletes
      reads this, info, pending, hardDeletes, pending.liveDocs, hardDeletes.liveDocs
    {
      Deletes(info.delCount, info.softDelCount, info.delGen, info.nextWriteDelGen, info.written, pending.Live(),
              hardDeletes.Live(), pending.pendingDeleteCount, hardDeletes.pendingDeleteCount, dvGeneration)
    }

    /** Every dead document is counted once: on disk or pending, hard or soft. */
    ghost predicate Conserved()
      reads this, info, pending, hardDeletes, pending.liveDocs, hardDeletes.liveDocs
    {
      HardShort(info.maxDoc, Seen()) == 0 && Short(info.maxDoc, Seen()) == 0
    }

    function NumPendingDeletes(): int
      reads this, pending, hardDeletes
    {
      pending.pendingDeleteCount + hardDeletes.pendingDeleteCount
    }

    /** NewPendingSoftDeletes, for a segment without deletes. */
    constructor (field: string, info: SegmentCommitInfo)
      requires info.delCount == 0 && info.softDelCount == 0
      ensures Valid() && Within() && Conserved() && fresh(pending) && fresh(hardDeletes)
      ensures NumPendingDeletes() == 0 && pending.pendingDeleteCount == 0
      ensures this.info == info && this.field == field && dvGeneration == -2
      ensures pending.liveDocs == null && hardDeletes.liveDocs == null
    {
      DocsSize(info.maxDoc);
      this.info, this.field, dvGeneration := info, field, -2;
      pending := new PendingDeletes(info, null);
      hardDeletes := new PendingDeletes(info, null);
    }

    /** NewPendingSoftDeletesV1, for a reader's live docs, which both share: the reader's
        deletes that the commit does not know are counted twice. */
    constructor FromReader(field: string, info: SegmentCommitInfo, liveDocs: BitSet, numDeletedDocs: nat)
      requires liveDocs.bits <= Docs(info.maxDoc) && |liveDocs.bits| == info.maxDoc - numDeletedDocs
      ensures Valid() && Within() && fresh(pending) && fresh(hardDeletes)
      ensures this.info == info && this.field == field
      ensures pending.liveDocs == liveDocs && hardDeletes.liveDocs == liveDocs
      ensures pending.pendingDeleteCount == hardDeletes.pendingDeleteCount == numDeletedDocs - info.delCount
      ensures Conserved() <==> info.softDelCount == info.delCount - numDeletedDocs
    {
      this.info, this.field, dvGeneration := info, field, -2;
      pending := new PendingDeletes(info, liveDocs);
      hardDeletes := new PendingDeletes(info, liveDocs);
      new;
      pending.pendingDeleteCount := numDeletedDocs - info.delCount;
      hardDeletes.pendingDeleteCount := numDeletedDocs - info.delCount;
    }

    /** Delete: a hard delete; a document that was deleted softly changes its kind. */
    method Delete(docID: nat) returns (deleted: bool)
      requires Valid()
      modifies pending, hardDeletes, pending.writeableLiveDocs, hardDeletes.writeableLiveDocs
      ensures Valid() && Seen() == Deleted(old(Seen()), docID) && deleted == (docID in old(hardDeletes.Live()))
      ensures (old(Conserved()) ==> Conserved()) && (old(Within()) ==> Within())
      ensures hardDeletes.Live() == old(hardDeletes.Live()) - {docID}
      ensures pending.writeableLiveDocs == old(pending.writeableLiveDocs) || fresh(pending.writeableLiveDocs)
      ensures hardDeletes.writeableLiveDocs == old(hardDeletes.writeableLiveDocs)
              || fresh(hardDeletes.writeableLiveDocs)
      ensures NumPendingDeletes() - old(NumPendingDeletes()) ==
              if docID in old(pending.Live()) && docID in old(hardDeletes.Live()) then 1 else 0
    {
      hide Docs, HardShort, Short;
      DeleteKeepsCounts(info.maxDoc, Seen(), docID);
      deleted := DeleteBoth(docID);
      assert docID !in old(hardDeletes.Live()) ==> hardDeletes.Live() == old(hardDeletes.Live());
    }

    /** The bits and counts of a hard delete. */
    method DeleteBoth(docID: nat) returns (deleted: bool)
      requires Valid()
      modifies pending, hardDeletes, pending.writeableLiveDocs, hardDeletes.writeableLiveDocs
      ensures Valid() && deleted == (docID in old(hardDeletes.Live()))
      ensures hardDeletes.Live() == old(hardDeletes.Live()) - {docID}
      ensures pending.Live() == Without(old(pending.Live()), docID, deleted)
      ensures hardDeletes.pendingDeleteCount - old(hardDeletes.pendingDeleteCount) ==
              |old(hardDeletes.Live())| - |hardDeletes.Live()|
      ensures pending.pendingDeleteCount ==
              old(pending.pendingDeleteCount) - if deleted && docID !in old(pending.Live()) then 1 else 0
      ensures pending.writeableLiveDocs == old(pending.writeableLiveDocs) || fresh(pending.writeableLiveDocs)
      ensures hardDeletes.writeableLiveDocs == old(hardDeletes.writeableLiveDocs)
              || fresh(hardDeletes.writeableLiveDocs)
    {
      hide Docs;
      ghost var live, hard := pending.Live(), hardDeletes.Live();
      var mutableBits := pending.GetMutableBits();
      assert Valid() && hardDeletes.Live() == hard;
      deleted := hardDeletes.Delete(docID);
      assert Valid() && pending.Live() == mutableBits.bits == live;
      if deleted {
        DeleteHereToo(mutableBits, docID);
      }
    }

    method DeleteHereToo(mutableBits: BitSet, docID: nat)
      modifies mutableBits, pending`pendingDeleteCount
      ensures mutableBits.bits == old(mutableBits.bits) - {docID}
      ensures pending.pendingDeleteCount ==
              old(pending.pendingDeleteCount) - (if docID in old(mutableBits.bits) then 0 else 1)
    {
      if mutableBits.Test(docID) {
        mutableBits.Clear(docID);
      } else {
        pending.pendingDeleteCount := pending.pendingDeleteCount - 1;
      }
    }

    /** OnDocValuesUpdate, with the documents that the iterator delivers; for another field
        nothing happens to bits and counts. The live documents stay among the hard-live ones
        exactly when no document that was hard-deleted comes back. */
    method OnDocValuesUpdate(name: string, gen: int, docs: seq<nat>)
      requires Valid() && forall i | 0 <= i < |docs| :: docs[i] < info.maxDoc
      modifies this`dvGeneration, pending, pending.writeableLiveDocs, info
      ensures Valid() && (old(Conserved()) ==> Conserved())
      ensures Seen() == (if name == field then Updated(old(Seen()), docs) else old(Seen())).(dvGeneration := gen)
      ensures old(Within()) && Distinct(docs) ==>
                (Within() <==> name != field || forall i | 0 <= i < |docs| :: docs[i] in hardDeletes.Live())
      ensures pending.writeableLiveDocs == old(pending.writeableLiveDocs) || fresh(pending.writeableLiveDocs)
    {
      hide HardShort, Short, Toggled, Docs, Distinct;
      ghost var live, hard := pending.Live(), hardDeletes.Live();
      GenerationAside(info.maxDoc, Seen(), gen);
      GenerationAside(info.maxDoc, Updated(Seen(), docs), gen);
      if field == name {
        UpdateKeepsCounts(info.maxDoc, Seen(), docs);
        if live <= hard && Distinct(docs) {
          ToggledWithinIff(live, docs, hard);
        }
        SoftUpdate(docs);
      }
      dvGeneration := gen;
    }

    /** The bits and counts of soft deletes. */
    method SoftUpdate(docs: seq<nat>)
      requires Valid() && forall i | 0 <= i < |docs| :: docs[i] < info.maxDoc
      modifies pending, pending.writeableLiveDocs, info
      ensures Valid() && hardDeletes.Live() == old(hardDeletes.Live())
      ensures pending.Live() == Toggled(old(pending.Live()), docs) && pending.pendingDeleteCount == 0
      ensures info.delCount == old(info.delCount) && info.delGen == old(info.delGen)
      ensures info.nextWriteDelGen == old(info.nextWriteDelGen) && info.written == old(info.written)
      ensures info.softDelCount - old(info.softDelCount) ==
              old(pending.pendingDeleteCount) + (|old(pending.Live())| - |pending.Live()|)
      ensures pending.writeableLiveDocs == old(pending.writeableLiveDocs) || fresh(pending.writeableLiveDocs)
    {
      hide Toggled;
      ToggledWithin(pending.Live(), docs, Docs(info.maxDoc));
      hide Docs;
      var mutableBits := pending.GetMutableBits();
      var deletes := ApplySoftDeletes(docs, mutableBits);
      pending.pendingDeleteCount := pending.pendingDeleteCount + deletes;
      info.softDelCount := info.softDelCount + pending.pendingDeleteCount;
      pending.DropChanges();
    }

    /** WriteLiveDocs: what was pending is on disk; neither side of the balance changes. */
    method WriteLiveDocs() returns (wrote: bool)
      requires Valid()
      modifies pending`pendingDeleteCount, hardDeletes`pendingDeleteCount, info
      ensures Valid() && Seen() == Wrote(old(Seen())) && (old(Conserved()) ==> Conserved())
      ensures NumPendingDeletes() == 0 && wrote == (old(hardDeletes.pendingDeleteCount) != 0)
    {
      hide HardShort, Short, Docs;
      WriteKeepsCounts(info.maxDoc, Seen());
      info.softDelCount := info.softDelCount + pending.pendingDeleteCount;
      pending.DropChanges();
      wrote := hardDeletes.WriteLiveDocs();
    }

    /** DropChanges forgets the pending hard deletes, but not their bits, and nothing else; so
        the balance survives exactly when there are none. */
    method DropChanges()
      requires Valid()
      modifies hardDeletes`pendingDeleteCount
      ensures Valid() && Seen() == Dropped(old(Seen()))
      ensures hardDeletes.pendingDeleteCount == 0 && NumPendingDeletes() == old(pending.pendingDeleteCount)
      ensures old(Conserved()) ==> (Conserved() <==> old(hardDeletes.pendingDeleteCount) == 0)
    {
      DropForgets(info.maxDoc, Seen());
      hardDeletes.DropChanges();
    }

    /** After that a write has nothing hard to write: what is on disk stays, but for the soft
        deletes, and so do the bits. */
    method DropAndWrite() returns (wrote: bool)
      requires Valid()
      modifies pending`pendingDeleteCount, hardDeletes`pendingDeleteCount, info
      ensures Valid() && !wrote && NumPendingDeletes() == 0
      ensures info.delCount == old(info.delCount) && info.delGen == old(info.delGen)
      ensures info.softDelCount == old(info.softDelCount + pending.pendingDeleteCount)
              && info.written == old(info.written)
      ensures pending.Live() == old(pending.Live()) && hardDeletes.Live() == old(hardDeletes.Live())
    {
      DropChanges();
      wrote := WriteLiveDocs();
    }

    /** The promoted GetDelCount does not see the pending hard deletes, so neither do
        NumDocs and IsFullyDeleted: they are right exactly when there are none. */
    lemma DelCountRight()
      requires Valid() && Conserved()
      ensures pending.GetDelCount() == info.maxDoc - |pending.Live()| - hardDeletes.pendingDeleteCount
      ensures pending.NumDocs() == |pending.Live()| <==> hardDeletes.pendingDeleteCount == 0
      ensures hardDeletes.pendingDeleteCount == 0 ==> (pending.IsFullyDeleted() <==> pending.Live() == {})
    {
    }
  }

  // Whole runs

  datatype Op = HardDelete(doc: nat) | SoftUpdate(docs: seq<nat>) | Write | Drop

  ghost function Next(s: Deletes, op: Op): Deletes {
    match op
    case HardDelete(doc) => Deleted(s, doc)
    case SoftUpdate(docs) => Updated(s, docs)
    case Write => Wrote(s)
    case Drop => Dropped(s)
  }

  ghost function After(s: Deletes, ops: seq<Op>): Deletes {
    if ops == [] then s else Next(After(s, ops[..|ops| - 1]), ops[|ops| - 1])
  }

  /** The documents that are hard-deleted in a run. */
  function HardDeleted(ops: seq<Op>): set<nat> {
    if ops == [] then {}
    else HardDeleted(ops[..|ops| - 1]) + if ops[|ops| - 1].HardDelete? then {ops[|ops| - 1].doc} else {}
  }

  /** The pending hard deletes that were dropped in a run. */
  ghost function Forgotten(s: Deletes, ops: seq<Op>): int {
    if ops == [] then 0
    else
      var init := ops[..|ops| - 1];
      Forgotten(s, init) + if ops[|ops| - 1].Drop? then After(s, init).hardPending else 0
  }

  /** Over any run the counts miss exactly the deletes that were dropped, and the hard-live
      documents are those not deleted since. */
  lemma {:induction false} RunForgets(maxDoc: nat, s: Deletes, ops: seq<Op>)
    ensures HardShort(maxDoc, After(s, ops)) == HardShort(maxDoc, s) + Forgotten(s, ops)
    ensures Short(maxDoc, After(s, ops)) == Short(maxDoc, s) + Forgotten(s, ops)
    ensures After(s, ops).hardLive == s.hardLive - HardDeleted(ops)
  {
    if ops != [] {
      hide HardShort, Short, Deleted, Updated, Wrote;
      var init := ops[..|ops| - 1];
      RunForgets(maxDoc, s, init);
      var t := After(s, init);
      match ops[|ops| - 1] {
        case HardDelete(doc) => DeleteKeepsCounts(maxDoc, t, doc);
        case SoftUpdate(docs) =>
          UpdateKeepsCounts(maxDoc, t, docs);
          OthersStay(t, docs);
        case Write =>
          WriteKeepsCounts(maxDoc, t);
          OthersStay(t, []);
        case Drop => DropForgets(maxDoc, t);
      }
    }
  }

  lemma OthersStay(s: Deletes, docs: seq<nat>)
    ensures Updated(s, docs).hardLive == s.hardLive == Wrote(s).hardLive && Wrote(s).live == s.live
  {
  }

  lemma GenerationAside(maxDoc: nat, s: Deletes, gen: int)
    ensures HardShort(maxDoc, s.(dvGeneration := gen)) == HardShort(maxDoc, s)
    ensures Short(maxDoc, s.(dvGeneration := gen)) == Short(maxDoc, s)
  {
  }

  /** An update of the soft-deletes field is for documents that are not hard-deleted yet,
      each once. */
  ghost predicate Clean(hardLive: set<nat>, ops: seq<Op>, i: nat)
    requires i < |ops|
  {
    ops[i].SoftUpdate? ==>
      && Distinct(ops[i].docs)
      && forall k | 0 <= k < |ops[i].docs| :: ops[i].docs[k] in hardLive - HardDeleted(ops[..i])
  }

  /** Then the live documents stay among the hard-live ones. */
  lemma {:induction false} RunStaysWithin(maxDoc: nat, s: Deletes, ops: seq<Op>)
    requires s.live <= s.hardLive && forall i | 0 <= i < |ops| :: Clean(s.hardLive, ops, i)
    ensures After(s, ops).live <= After(s, ops).hardLive
  {
    if ops != [] {
      var n := |ops| - 1;
      var init, t := ops[..n], After(s, ops[..n]);
      assert Clean(s.hardLive, ops, n);
      forall i | 0 <= i < n ensures Clean(s.hardLive, init, i) {
        assert Clean(s.hardLive, ops, i) && init[..i] == ops[..i];
      }
      RunStaysWithin(maxDoc, s, init);
      RunForgets(maxDoc, s, init);
      hide HardShort, Short, HardDeleted, Toggled;
      match ops[n] {
        case HardDelete(doc) => DeleteKeepsCounts(maxDoc, t, doc);
        case SoftUpdate(docs) => ToggledWithinIff(t.live, docs, t.hardLive);
        case _ =>
      }
    }
  }

  ghost predicate InSegment(maxDoc: nat, op: Op) {
    op.SoftUpdate? ==> forall k | 0 <= k < |op.docs| :: op.docs[k] < maxDoc
  }

  method Step(p: PendingSoftDeletes, op: Op)
    requires p.Valid() && InSegment(p.info.maxDoc, op)
    modifies p, p.info, p.pending, p.hardDeletes, p.pending.writeableLiveDocs, p.hardDeletes.writeableLiveDocs
    ensures p.Valid() && p.Seen() == Next(old(p.Seen()), op)
    ensures p.pending.writeableLiveDocs == old(p.pending.writeableLiveDocs) || fresh(p.pending.writeableLiveDocs)
    ensures p.hardDeletes.writeableLiveDocs == old(p.hardDeletes.writeableLiveDocs)
            || fresh(p.hardDeletes.writeableLiveDocs)
  {
    hide Docs, HardShort, Short, Toggled;
    match op {
      case HardDelete(doc) =>
        var _ := p.Delete(doc);
      case SoftUpdate(docs) =>
        p.OnDocValuesUpdate(p.field, p.dvGeneration, docs);
      case Write =>
        var _ := p.WriteLiveDocs();
      case Drop =>
        p.DropChanges();
    }
  }

  /** Any run, from any state, takes these steps one after the other. Of the dead documents
      the counts then miss as many more as pending hard deletes were dropped, and no others;
      the hard-live documents are those not deleted since; the live ones stay among them if no
      update is for a document that is hard-deleted already. */
  method RunOps(p: PendingSoftDeletes, ops: seq<Op>)
    requires p.Valid() && forall i | 0 <= i < |ops| :: InSegment(p.info.maxDoc, ops[i])
    modifies p, p.info, p.pending, p.hardDeletes, p.pending.writeableLiveDocs, p.hardDeletes.writeableLiveDocs
    ensures p.Valid() && p.Seen() == After(old(p.Seen()), ops)
    ensures old(p.Conserved()) ==> (p.Conserved() <==> Forgotten(old(p.Seen()), ops) == 0)
    ensures p.hardDeletes.Live() == old(p.hardDeletes.Live()) - HardDeleted(ops)
    ensures old(p.Within()) && (forall i | 0 <= i < |ops| :: Clean(old(p.hardDeletes.Live()), ops, i)) ==> p.Within()
  {
    ghost var s := p.Seen();
    var i := 0;
    while i < |ops|
      invariant 0 <= i <= |ops| && p.Valid() && p.Seen() == After(s, ops[..i])
      invariant p.pending.writeableLiveDocs == old(p.pending.writeableLiveDocs) || fresh(p.pending.writeableLiveDocs)
      invariant p.hardDeletes.writeableLiveDocs == old(p.hardDeletes.writeableLiveDocs)
                || fresh(p.hardDeletes.writeableLiveDocs)
    {
      hide Docs, Next;
      assert ops[..i + 1][..i] == ops[..i];
      assert InSegment(p.info.maxDoc, ops[i]);
      Step(p, ops[i]);
      i := i + 1;
    }
    assert ops[..i] == ops;
    RunForgets(p.info.maxDoc, s, ops);
    if old(p.Within()) && forall i | 0 <= i < |ops| :: Clean(old(p.hardDeletes.Live()), ops, i) {
      RunStaysWithin(p.info.maxDoc, s, ops);
    }
  }
}
