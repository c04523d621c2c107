/** The delete queue protocol (core/index/documentswriterdeletequeue.go and
    documentswriterperthread.go) as steps that any number of writers take in any
    order: enqueuing a delete and updating a slice are atomic, applying a slice is a
    writer's own step. */
module DeleteProtocol {

  const MAX_INT32: int := 0x7fff_ffff

  type Term = string

  /** A delete in the queue and the sequence number its operation got. */
  datatype Delete = Delete(term: Term, seqNo: int)

  /** The queue: its deletes in order, the last number given out, and the slice
      and buffer of the deletes against earlier segments. */
  datatype Queue = Queue(log: seq<Delete>, seqNo: int, globalHead: nat, global: map<Term, int>)

  /** Where a writer is: between operations, processing documents, with a slice that
      it still has to apply to the documents below a limit, or done. */
  datatype Phase = Idle | Batch(before: nat) | Slice(before: nat) | Flushed

  /** A writer: the sequence number of every buffered document, that of its last
      operation, its slice of the queue and its buffered deletes. A document whose
      batch has not finished counts with the operation before it. */
  datatype Writer = Writer(docs: seq<int>, seqNo: int, head: nat, tail: nat, pending: map<Term, int>, phase: Phase)

  datatype System = System(queue: Queue, writers: seq<Writer>)

  datatype Step =
    | NewWriter
    | Begin(w: nat)
    | Process(w: nat)
    | Fail(w: nat)
    | Update(w: nat, term: Term)
    | Finish(w: nat)
    | Apply(w: nat)
    | PrepareFlush(w: nat, moved: bool)
    | Global

  function Initial(start: int): System {
    System(Queue([], start, 0, map[]), [])
  }

  // Buffered deletes

  /** BufferedUpdates.AddTerm: a limit is never lowered. */
  function AddTerm(pending: map<Term, int>, term: Term, upTo: int): map<Term, int> {
    if term in pending && pending[term] > upTo then pending else pending[term := upTo]
  }

  /** Applying part of the queue, front to back. */
  function AddTerms(pending: map<Term, int>, log: seq<Delete>, upTo: int): map<Term, int> {
    if log == [] then pending
    else AddTerm(AddTerms(pending, log[..|log| - 1], upTo), log[|log| - 1].term, upTo)
  }

  predicate Deleted(pending: map<Term, int>, term: Term, doc: int) {
    term in pending && doc < pending[term]
  }

  /** Among the first n deletes stands one of this term, later than `seqNo`. */
  ghost predicate Covered(log: seq<Delete>, n: nat, term: Term, seqNo: int) {
    exists i :: 0 <= i < n && i < |log| && log[i].term == term && log[i].seqNo > seqNo
  }

  ghost predicate Named(log: seq<Delete>, lo: nat, hi: nat, term: Term) {
    exists i :: lo <= i < hi && i < |log| && log[i].term == term
  }

  // The steps

  /** Queue.add: the new delete and its number. */
  function Enqueue(q: Queue, term: Term): Queue {
    q.(log := q.log + [Delete(term, q.seqNo + 1)], seqNo := q.seqNo + 1)
  }

  function Renumber(docs: seq<int>, before: nat, seqNo: int): (r: seq<int>)
    requires before <= |docs|
    ensures |r| == |docs|
  {
    docs[..before] + Repeat(seqNo, |docs| - before)
  }

  function Repeat(x: int, n: nat): (s: seq<int>)
    ensures |s| == n
  {
    seq(n, _ => x)
  }

  function StepUpdate(q: Queue, w: Writer, term: Term): Writer
    requires w.phase.Batch? && w.phase.before <= |w.docs|
  {
    var seqNo := q.seqNo + 1;
    w.(docs := Renumber(w.docs, w.phase.before, seqNo), seqNo := seqNo, tail := |q.log| + 1,
       phase := Slice(w.phase.before))
  }

  /** UpdateSlice: the number is returned negated when the slice has grown. */
  function SliceNumber(q: Queue, w: Writer): int {
    if w.tail != |q.log| then 0 - (q.seqNo + 1) else q.seqNo + 1
  }

  function Moved(q: Queue, w: Writer): Writer
    requires w.phase.Batch? && w.phase.before <= |w.docs|
  {
    w.(docs := Renumber(w.docs, w.phase.before, q.seqNo + 1), seqNo := q.seqNo + 1, tail := |q.log|)
  }

  /** The operation without a delete: a negative number makes the writer apply its
      slice, any other makes it drop it. */
  function StepFinish(q: Queue, w: Writer): Writer
    requires w.phase.Batch? && w.phase.before <= |w.docs|
  {
    if SliceNumber(q, w) < 0 then Moved(q, w).(phase := Slice(w.phase.before))
    else Moved(q, w).(head := |q.log|, phase := Idle)
  }

  function Applied(q: Queue, w: Writer, upTo: int): Writer
    requires w.head <= w.tail <= |q.log|
  {
    w.(pending := AddTerms(w.pending, q.log[w.head..w.tail], upTo), head := w.tail)
  }

  function StepApply(q: Queue, w: Writer): Writer
    requires w.head <= w.tail <= |q.log| && w.phase.Slice?
  {
    Applied(q, w, w.phase.before).(phase := Idle)
  }

  /** prepareFlush: applies the slice to everything buffered; whether the slice was
      moved to the end of the queue before is for freezeGlobalBuffer to say. */
  function StepPrepareFlush(q: Queue, w: Writer, moved: bool): Writer
    requires w.head <= w.tail <= |q.log|
  {
    Applied(q, if moved then w.(tail := |q.log|) else w, |w.docs|).(phase := Flushed)
  }

  /** tryApplyGlobalSlice */
  function StepGlobal(q: Queue): Queue
    requires q.globalHead <= |q.log|
  {
    q.(global := AddTerms(q.global, q.log[q.globalHead..], MAX_INT32), globalHead := |q.log|)
  }

  predicate Shape(s: System) {
    && s.queue.globalHead <= |s.queue.log|
    && forall w <- s.writers ::
      && w.head <= w.tail <= |s.queue.log|
      && (w.phase.Batch? || w.phase.Slice? ==> w.phase.before <= |w.docs|)
  }

  predicate Enabled(s: System, step: Step) {
    match step
    case NewWriter => true
    case Global => true
    case Begin(w) => w < |s.writers| && s.writers[w].phase.Idle?
    case Process(w) => w < |s.writers| && s.writers[w].phase.Batch?
    case Fail(w) => w < |s.writers| && s.writers[w].phase.Batch?
    case Update(w, _) => w < |s.writers| && s.writers[w].phase.Batch?
    case Finish(w) => w < |s.writers| && s.writers[w].phase.Batch?
    case Apply(w) => w < |s.writers| && s.writers[w].phase.Slice?
    case PrepareFlush(w, _) => w < |s.writers| && s.writers[w].phase.Idle?
  }

  function Next(s: System, step: Step): System
    requires Shape(s) && Enabled(s, step)
  {
    var q := s.queue;
    match step
    case NewWriter => s.(writers := s.writers + [Writer([], q.seqNo, |q.log|, |q.log|, map[], Idle)])
    case Global => s.(queue := StepGlobal(q))
    case Begin(w) => var x := s.writers[w]; s.(writers := s.writers[w := x.(phase := Batch(|x.docs|))])
    case Process(w) => var x := s.writers[w]; s.(writers := s.writers[w := x.(docs := x.docs + [x.seqNo])])
    case Fail(w) => s.(writers := s.writers[w := s.writers[w].(phase := Idle)])
    case Update(w, term) => System(Enqueue(q, term), s.writers[w := StepUpdate(q, s.writers[w], term)])
    case Finish(w) => System(q.(seqNo := q.seqNo + 1), s.writers[w := StepFinish(q, s.writers[w])])
    case Apply(w) => s.(writers := s.writers[w := StepApply(q, s.writers[w])])
    case PrepareFlush(w, moved) => s.(writers := s.writers[w := StepPrepareFlush(q, s.writers[w], moved)])
  }

  // What every step keeps

  ghost predicate QueueOk(q: Queue) {
    && -1 <= q.seqNo
    && (forall i | 0 <= i < |q.log| :: 0 <= q.log[i].seqNo <= q.seqNo)
    && (forall i, j | 0 <= i < j < |q.log| :: q.log[i].seqNo < q.log[j].seqNo)
    && q.globalHead <= |q.log|
    && forall term: Term ::
      && (term in q.global <==> Named(q.log, 0, q.globalHead, term))
      && (term in q.global ==> q.global[term] == MAX_INT32)
  }

  /** The buffered deletes of a writer are exact for the part of the queue it has
      applied: a document counts as deleted by a term exactly when the queue holds
      there a delete of that term with a later number than the document's. */
  ghost predicate Exact(q: Queue, w: Writer) {
    forall term: Term, d: nat | d < |w.docs| ::
      Deleted(w.pending, term, d) <==> Covered(q.log, w.head, term, w.docs[d])
  }

  ghost predicate WriterOk(q: Queue, w: Writer) {
    && w.head <= w.tail <= |q.log|
    && (forall term <- w.pending :: w.pending[term] <= |w.docs|)
    && Exact(q, w)
    && match w.phase
       case Idle => w.head == w.tail && UpToDate(q, w)
       case Batch(before) =>
         && w.head == w.tail && UpToDate(q, w)
         && before <= |w.docs| && forall d | before <= d < |w.docs| :: w.docs[d] == w.seqNo
       case Slice(before) => before <= |w.docs| && UpToDate(q, w) && SliceSeparates(q, w, before)
       case Flushed => w.head == w.tail
  }

  /** The slice ends where the writer's last operation stands. */
  ghost predicate UpToDate(q: Queue, w: Writer)
    requires w.tail <= |q.log|
  {
    && w.seqNo <= q.seqNo
    && (forall i | 0 <= i < |q.log| :: q.log[i].seqNo <= w.seqNo <==> i < w.tail)
    && (forall d | 0 <= d < |w.docs| :: w.docs[d] <= w.seqNo)
  }

  /** The slice lies between the documents below the limit and the others. */
  ghost predicate SliceSeparates(q: Queue, w: Writer, before: nat)
    requires w.tail <= |q.log|
  {
    && (forall d, i | 0 <= d < before && d < |w.docs| && w.head <= i < w.tail :: w.docs[d] < q.log[i].seqNo)
    && (forall d, i | before <= d < |w.docs| && w.head <= i < w.tail :: q.log[i].seqNo <= w.docs[d])
  }

  ghost predicate Ok(s: System) {
    QueueOk(s.queue) && forall w <- s.writers :: WriterOk(s.queue, w)
  }

  lemma OkShape(s: System)
    requires Ok(s)
    ensures Shape(s)
  {
    forall w <- s.writers
      ensures w.head <= w.tail <= |s.queue.log| && (w.phase.Batch? || w.phase.Slice? ==> w.phase.before <= |w.docs|)
    {
      assert WriterOk(s.queue, w);
    }
  }

  // Applying a slice

  /** A limit reaches a document exactly if it did before or the new one does. */
  lemma {:induction false} DeletedAfter(pending: map<Term, int>, log: seq<Delete>, upTo: int, term: Term, d: nat)
    ensures Deleted(AddTerms(pending, log, upTo), term, d) <==>
            Deleted(pending, term, d) || (d < upTo && Named(log, 0, |log|, term))
    ensures term in AddTerms(pending, log, upTo) <==> term in pending || Named(log, 0, |log|, term)
    ensures term in AddTerms(pending, log, upTo) ==>
              AddTerms(pending, log, upTo)[term] == upTo ||
              (term in pending && AddTerms(pending, log, upTo)[term] == pending[term])
  {
    if log != [] {
      var n := |log| - 1;
      var init := log[..n];
      DeletedAfter(pending, init, upTo, term, d);
      if Named(log, 0, |log|, term) && log[n].term != term {
        var i :| 0 <= i < |log| && log[i].term == term;
        assert init[i].term == term;
      }
      if Named(init, 0, n, term) {
        var i :| 0 <= i < n && init[i].term == term;
        assert log[i].term == term;
      }
    }
  }

  lemma NamedSlice(log: seq<Delete>, lo: nat, hi: nat, term: Term)
    requires lo <= hi <= |log|
    ensures Named(log[lo..hi], 0, hi - lo, term) <==> Named(log, lo, hi, term)
  {
    if Named(log[lo..hi], 0, hi - lo, term) {
      var i :| 0 <= i < hi - lo && log[lo..hi][i].term == term;
      assert log[lo + i].term == term;
    }
    if Named(log, lo, hi, term) {
      var i :| lo <= i < hi && log[i].term == term;
      assert log[lo..hi][i - lo].term == term;
    }
  }

  /** Applying a slice that separates the documents keeps the writer exact, up to
      the end of the slice. */
  lemma ApplyIsExact(q: Queue, w: Writer, before: nat)
    requires w.head <= w.tail <= |q.log| && before <= |w.docs|
    requires Exact(q, w) && SliceSeparates(q, w, before)
    ensures Exact(q, Applied(q, w, before))
  {
    var w' := Applied(q, w, before);
    forall term: Term, d: nat | d < |w'.docs|
      ensures Deleted(w'.pending, term, d) <==> Covered(q.log, w'.head, term, w'.docs[d])
    {
      DeletedAfter(w.pending, q.log[w.head..w.tail], before, term, d);
      NamedSlice(q.log, w.head, w.tail, term);
      CoveredSplit(q, w, before, term, d);
    }
  }

  lemma CoveredSplit(q: Queue, w: Writer, before: nat, term: Term, d: nat)
    requires w.head <= w.tail <= |q.log| && d < |w.docs| && SliceSeparates(q, w, before)
    ensures Covered(q.log, w.tail, term, w.docs[d]) <==>
            Covered(q.log, w.head, term, w.docs[d]) || (d < before && Named(q.log, w.head, w.tail, term))
  {
    if Covered(q.log, w.tail, term, w.docs[d]) && !Covered(q.log, w.head, term, w.docs[d]) {
      var i :| 0 <= i < w.tail && i < |q.log| && q.log[i].term == term && q.log[i].seqNo > w.docs[d];
      assert w.head <= i;
    }
    if d < before && Named(q.log, w.head, w.tail, term) {
      var i :| w.head <= i < w.tail && i < |q.log| && q.log[i].term == term;
      assert q.log[i].seqNo > w.docs[d];
    }
  }

  lemma LimitsFit(q: Queue, w: Writer, upTo: nat)
    requires w.head <= w.tail <= |q.log| && upTo <= |w.docs| && forall term <- w.pending :: w.pending[term] <= |w.docs|
    ensures forall term <- Applied(q, w, upTo).pending :: Applied(q, w, upTo).pending[term] <= |w.docs|
  {
    forall term <- Applied(q, w, upTo).pending ensures Applied(q, w, upTo).pending[term] <= |w.docs| {
      DeletedAfter(w.pending, q.log[w.head..w.tail], upTo, term, 0);
    }
  }

  lemma ApplyOk(q: Queue, w: Writer)
    requires QueueOk(q) && WriterOk(q, w) && w.phase.Slice?
    ensures WriterOk(q, StepApply(q, w))
  {
    ApplyIsExact(q, w, w.phase.before);
    LimitsFit(q, w, w.phase.before);
    StillExact(q, q, Applied(q, w, w.phase.before), StepApply(q, w));
  }

  // The single steps

  lemma QueueGrows(q: Queue, q': Queue, w: Writer)
    requires QueueOk(q) && QueueOk(q') && WriterOk(q, w)
    requires q.log <= q'.log && q.seqNo <= q'.seqNo
    requires forall i | |q.log| <= i < |q'.log| :: q'.log[i].seqNo > q.seqNo
    ensures WriterOk(q', w)
  {
    assert forall i | 0 <= i < |q.log| :: q'.log[i] == q.log[i];
    forall term: Term, d: nat | d < |w.docs|
      ensures Covered(q'.log, w.head, term, w.docs[d]) <==> Covered(q.log, w.head, term, w.docs[d])
    {
      if Covered(q.log, w.head, term, w.docs[d]) {
        var i :| 0 <= i < w.head && i < |q.log| && q.log[i].term == term && q.log[i].seqNo > w.docs[d];
        assert q'.log[i].term == term;
      }
    }
  }

  lemma EnqueueOk(q: Queue, term: Term)
    requires QueueOk(q)
    ensures QueueOk(Enqueue(q, term))
  {
    var q' := Enqueue(q, term);
    forall t: Term ensures t in q'.global <==> Named(q'.log, 0, q'.globalHead, t) {
      if Named(q.log, 0, q.globalHead, t) {
        var i :| 0 <= i < q.globalHead && q.log[i].term == t;
        assert q'.log[i].term == t;
      }
    }
  }

  lemma NumberOk(q: Queue)
    requires QueueOk(q)
    ensures QueueOk(q.(seqNo := q.seqNo + 1))
  {
  }

  lemma GlobalOk(q: Queue)
    requires QueueOk(q)
    ensures QueueOk(StepGlobal(q))
  {
    var q' := StepGlobal(q);
    forall t: Term
      ensures (t in q'.global <==> Named(q'.log, 0, q'.globalHead, t)) && (t in q'.global ==> q'.global[t] == MAX_INT32)
    {
      DeletedAfter(q.global, q.log[q.globalHead..], MAX_INT32, t, 0);
      NamedSlice(q.log, q.globalHead, |q.log|, t);
      if Named(q.log, 0, q.globalHead, t) {
        var i :| 0 <= i < q.globalHead && q.log[i].term == t;
        assert Named(q'.log, 0, q'.globalHead, t);
      }
    }
  }

  lemma NewWriterOk(q: Queue)
    requires QueueOk(q)
    ensures WriterOk(q, Writer([], q.seqNo, |q.log|, |q.log|, map[], Idle))
  {
  }

  lemma ProcessOk(q: Queue, w: Writer)
    requires QueueOk(q) && WriterOk(q, w) && w.phase.Batch?
    ensures WriterOk(q, w.(docs := w.docs + [w.seqNo]))
  {
    var w' := w.(docs := w.docs + [w.seqNo]);
    forall term: Term, d: nat | d < |w'.docs|
      ensures Deleted(w'.pending, term, d) <==> Covered(q.log, w'.head, term, w'.docs[d])
    {
      if d < |w.docs| {
        assert w'.docs[d] == w.docs[d];
      } else {
        assert !Covered(q.log, w.head, term, w.seqNo);
      }
    }
  }

  /** New numbers for the last documents change nothing for the deletes applied so
      far: none of those is later than the number replaced. */
  lemma RenumberedExact(q: Queue, w: Writer, seqNo: int)
    requires QueueOk(q) && WriterOk(q, w) && w.phase.Batch? && seqNo > q.seqNo
    ensures Exact(q, w.(docs := Renumber(w.docs, w.phase.before, seqNo)))
  {
    var before := w.phase.before;
    var docs := Renumber(w.docs, before, seqNo);
    forall term: Term, d: nat | d < |docs|
      ensures Deleted(w.pending, term, d) <==> Covered(q.log, w.head, term, docs[d])
    {
      assert Deleted(w.pending, term, d) <==> Covered(q.log, w.head, term, w.docs[d]);
      if d >= before {
        assert !Covered(q.log, w.head, term, w.seqNo);
        assert !Covered(q.log, w.head, term, seqNo);
      }
    }
  }

  lemma UpdateOk(q: Queue, w: Writer, term: Term)
    requires QueueOk(q) && WriterOk(q, w) && w.phase.Batch?
    ensures WriterOk(Enqueue(q, term), StepUpdate(q, w, term))
  {
    var q', w' := Enqueue(q, term), StepUpdate(q, w, term);
    EnqueueOk(q, term);
    RenumberedExact(q, w, q.seqNo + 1);
    StillExact(q, q', w.(docs := w'.docs), w');
  }

  /** Deletes behind a writer's slice do not matter to it. */
  lemma StillExact(q: Queue, q': Queue, w: Writer, w': Writer)
    requires Exact(q, w) && w.head <= |q.log| && q.log <= q'.log
    requires w'.docs == w.docs && w'.head == w.head && w'.pending == w.pending
    ensures Exact(q', w')
  {
    assert forall i | 0 <= i < |q.log| :: q'.log[i] == q.log[i];
    forall term: Term, d: nat | d < |w.docs|
      ensures Covered(q'.log, w.head, term, w.docs[d]) <==> Covered(q.log, w.head, term, w.docs[d])
    {
      if Covered(q.log, w.head, term, w.docs[d]) {
        var i :| 0 <= i < w.head && i < |q.log| && q.log[i].term == term && q.log[i].seqNo > w.docs[d];
        assert q'.log[i].term == term;
      }
    }
  }

  /** A number that is not negated means that the slice has not grown: the number
      zero, whose negation would be lost, is only given out while the queue is
      empty. */
  lemma ZeroHidesNothing(q: Queue, w: Writer)
    requires QueueOk(q) && WriterOk(q, w)
    ensures SliceNumber(q, w) < 0 <==> w.tail != |q.log|
  {
    if w.tail != |q.log| {
      assert q.log[w.tail].seqNo >= 0;
    }
  }

  lemma FinishOk(q: Queue, w: Writer)
    requires QueueOk(q) && WriterOk(q, w) && w.phase.Batch?
    ensures WriterOk(q.(seqNo := q.seqNo + 1), StepFinish(q, w))
  {
    var q', w' := q.(seqNo := q.seqNo + 1), StepFinish(q, w);
    ZeroHidesNothing(q, w);
    RenumberedExact(q, w, q.seqNo + 1);
    StillExact(q, q', w.(docs := w'.docs), w');
  }

  lemma PrepareFlushOk(q: Queue, w: Writer, moved: bool)
    requires QueueOk(q) && WriterOk(q, w) && w.phase.Idle?
    ensures WriterOk(q, StepPrepareFlush(q, w, moved))
  {
    var w1 := if moved then w.(tail := |q.log|) else w;
    StillExact(q, q, w, w1);
    ApplyIsExact(q, w1, |w.docs|);
    LimitsFit(q, w1, |w.docs|);
    StillExact(q, q, Applied(q, w1, |w.docs|), StepPrepareFlush(q, w, moved));
  }

  lemma BeginOk(q: Queue, w: Writer)
    requires QueueOk(q) && WriterOk(q, w)
    ensures w.phase.Idle? ==> WriterOk(q, w.(phase := Batch(|w.docs|)))
    ensures w.phase.Batch? ==> WriterOk(q, w.(phase := Idle))
  {
    var w1 := if w.phase.Idle? then w.(phase := Batch(|w.docs|)) else w.(phase := Idle);
    StillExact(q, q, w, w1);
  }

  lemma Replaced(q: Queue, writers: seq<Writer>, w: nat, x: Writer)
    requires QueueOk(q) && (forall y <- writers :: WriterOk(q, y)) && w < |writers| && WriterOk(q, x)
    ensures Ok(System(q, writers[w := x]))
  {
    hide WriterOk, QueueOk;
  }

  /** Every step of every writer keeps the invariant. */
  lemma StepKeeps(s: System, step: Step)
    requires Ok(s) && Shape(s) && Enabled(s, step)
    ensures Ok(Next(s, step))
  {
    hide WriterOk, QueueOk, StepUpdate, StepFinish, StepApply, StepPrepareFlush, StepGlobal, Enqueue;
    var q := s.queue;
    match step
    case NewWriter => NewWriterOk(q);
    case Global =>
      GlobalOk(q);
      SameLog(q);
      OthersKeep(s, StepGlobal(q));
    case Begin(w) =>
      BeginOk(q, s.writers[w]);
      Replaced(q, s.writers, w, s.writers[w].(phase := Batch(|s.writers[w].docs|)));
    case Process(w) =>
      ProcessOk(q, s.writers[w]);
      Replaced(q, s.writers, w, s.writers[w].(docs := s.writers[w].docs + [s.writers[w].seqNo]));
    case Fail(w) =>
      BeginOk(q, s.writers[w]);
      Replaced(q, s.writers, w, s.writers[w].(phase := Idle));
    case Update(w, term) =>
      EnqueueOk(q, term);
      UpdateOk(q, s.writers[w], term);
      OneMore(q, term);
      OthersKeep(s, Enqueue(q, term));
      Replaced(Enqueue(q, term), s.writers, w, StepUpdate(q, s.writers[w], term));
    case Finish(w) =>
      NumberOk(q);
      FinishOk(q, s.writers[w]);
      OthersKeep(s, q.(seqNo := q.seqNo + 1));
      Replaced(q.(seqNo := q.seqNo + 1), s.writers, w, StepFinish(q, s.writers[w]));
    case Apply(w) =>
      ApplyOk(q, s.writers[w]);
      Replaced(q, s.writers, w, StepApply(q, s.writers[w]));
    case PrepareFlush(w, moved) =>
      PrepareFlushOk(q, s.writers[w], moved);
      Replaced(q, s.writers, w, StepPrepareFlush(q, s.writers[w], moved));
  }

  lemma SameLog(q: Queue)
    requires q.globalHead <= |q.log|
    ensures StepGlobal(q).log == q.log && StepGlobal(q).seqNo == q.seqNo
  {
  }

  lemma OneMore(q: Queue, term: Term)
    ensures q.log <= Enqueue(q, term).log && Enqueue(q, term).seqNo == q.seqNo + 1
    ensures |Enqueue(q, term).log| == |q.log| + 1 && Enqueue(q, term).log[|q.log|].seqNo == q.seqNo + 1
  {
  }

  lemma OthersKeep(s: System, q': Queue)
    requires Ok(s) && QueueOk(q') && s.queue.log <= q'.log && s.queue.seqNo <= q'.seqNo
    requires forall i | |s.queue.log| <= i < |q'.log| :: q'.log[i].seqNo > s.queue.seqNo
    ensures forall w <- s.writers :: WriterOk(q', w)
  {
    forall w <- s.writers ensures WriterOk(q', w) {
      QueueGrows(s.queue, q', w);
    }
  }

  // Runs

  /** The system after a run; a step that is not enabled does nothing. */
  ghost function After(start: int, steps: seq<Step>): System {
    if steps == [] then Initial(start)
    else
      var s := After(start, steps[..|steps| - 1]);
      var step := steps[|steps| - 1];
      if Shape(s) && Enabled(s, step) then Next(s, step) else s
  }

  lemma {:induction false} RunKeeps(steps: seq<Step>)
    ensures Ok(After(-1, steps)) && Shape(After(-1, steps))
  {
    if steps != [] {
      RunKeeps(steps[..|steps| - 1]);
      var s := After(-1, steps[..|steps| - 1]);
      if Enabled(s, steps[|steps| - 1]) {
        StepKeeps(s, steps[|steps| - 1]);
      }
    }
    OkShape(After(-1, steps));
  }

  /** Serializability: in every run of any number of writers, once a writer has
      applied its slice, one of its documents counts as deleted by a term exactly
      when the part of the queue it has applied holds a delete of that term with a
      later sequence number than the document's. */
  lemma Serializable(steps: seq<Step>, w: nat, term: Term, d: nat)
    requires var s := After(-1, steps); w < |s.writers| && !s.writers[w].phase.Slice? && d < |s.writers[w].docs|
    ensures var s := After(-1, steps);
            var x := s.writers[w];
            && x.head == x.tail <= |s.queue.log|
            && (Deleted(x.pending, term, d) <==> Covered(s.queue.log, x.head, term, x.docs[d]))
            && (!x.phase.Flushed? ==>
                  forall i | 0 <= i < |s.queue.log| :: s.queue.log[i].seqNo <= x.seqNo <==> i < x.head)
  {
    RunKeeps(steps);
    var s := After(-1, steps);
    assert WriterOk(s.queue, s.writers[w]);
  }

  /** An update never deletes the document it adds: a document is deleted only by
      operations that come after its own. */
  lemma OwnDocumentSurvives(steps: seq<Step>, w: nat, term: Term, d: nat)
    requires var s := After(-1, steps); w < |s.writers| && !s.writers[w].phase.Slice? && d < |s.writers[w].docs|
    requires var s := After(-1, steps);
             forall i | 0 <= i < |s.queue.log| && s.queue.log[i].term == term ::
               s.queue.log[i].seqNo <= s.writers[w].docs[d]
    ensures !Deleted(After(-1, steps).writers[w].pending, term, d)
  {
    Serializable(steps, w, term, d);
  }

  /** At a flush whose slice was moved to the end of the queue, all deletes so far
      have been taken into account. */
  lemma FlushSeesAll(steps: seq<Step>, w: nat, term: Term, d: nat)
    requires var s := After(-1, steps); w < |s.writers| && s.writers[w].phase.Idle? && d < |s.writers[w].docs|
    ensures var s := After(-1, steps);
            && Shape(s)
            && var t := Next(s, PrepareFlush(w, true));
               Deleted(t.writers[w].pending, term, d) <==>
               Covered(s.queue.log, |s.queue.log|, term, s.writers[w].docs[d])
  {
    RunKeeps(steps);
    var s := After(-1, steps);
    StepKeeps(s, PrepareFlush(w, true));
    var t := Next(s, PrepareFlush(w, true));
    assert WriterOk(t.queue, t.writers[w]);
    assert t.writers[w].docs == s.writers[w].docs && t.writers[w].head == |s.queue.log|;
  }

  /** The global buffer holds exactly the terms of the deletes applied to it, for
      all documents. */
  lemma GlobalSeesAll(steps: seq<Step>, term: Term)
    ensures var s := After(-1, steps);
            && Shape(s)
            && var q := Next(s, Global).queue;
               && (term in q.global <==> Named(q.log, 0, |q.log|, term))
               && (term in q.global ==> q.global[term] == MAX_INT32)
  {
    RunKeeps(steps);
    StepKeeps(After(-1, steps), Global);
  }

  /** Numbers that start lower would be no good: a writer would take the negated
      number of its slice for that of an unmoved slice and lose another writer's
      delete. */
  lemma LowStartLosesDeletes(start: int) returns (steps: seq<Step>)
    requires start <= -2
    ensures var s := After(start, steps);
            && |s.writers| == 2 && s.writers[1].phase.Idle? && s.writers[1].head == |s.queue.log| == 1
            && |s.writers[1].docs| == 1
            && Covered(s.queue.log, 1, "t", s.writers[1].docs[0])
            && !Deleted(s.writers[1].pending, "t", 0)
  {
    hide After, Covered;
    steps := FailedBatch(start);
    var empty := Writer([], start, 0, 0, map[], Idle);
    var failed := empty.(docs := [start]);
    var q := Queue([Delete("t", start + 1)], start + 1, 0, map[]);
    var updated := empty.(seqNo := start + 1, tail := 1, phase := Slice(0));
    assert Renumber([], 0, start + 1) == [];
    steps := Extend(start, steps, Update(0, "t"), System(q, [updated, failed]));
    steps := Extend(start, steps, Begin(1), System(q, [updated, failed.(phase := Batch(1))]));
    assert Renumber([start], 1, start + 2) == [start];
    steps := Extend(start, steps, Finish(1),
                    System(q.(seqNo := start + 2), [updated, failed.(seqNo := start + 2, tail := 1, head := 1)]));
    LaterDelete(q.log, "t", start);
  }

  lemma LaterDelete(log: seq<Delete>, term: Term, seqNo: int)
    requires |log| == 1 && log[0].term == term && log[0].seqNo > seqNo
    ensures Covered(log, 1, term, seqNo)
  {
  }

  /** Two writers, the second with a document of a failed batch, the first in its
      first batch. */
  lemma FailedBatch(start: int) returns (steps: seq<Step>)
    ensures var empty := Writer([], start, 0, 0, map[], Idle);
            After(start, steps) ==
            System(Queue([], start, 0, map[]), [empty.(phase := Batch(0)), empty.(docs := [start])])
  {
    var q, empty := Queue([], start, 0, map[]), Writer([], start, 0, 0, map[], Idle);
    hide After;
    steps := OneDocument(start);
    steps := Extend(start, steps, Fail(1), System(q, [empty, empty.(docs := [start])]));
    steps := Extend(start, steps, Begin(0), System(q, [empty.(phase := Batch(0)), empty.(docs := [start])]));
  }

  lemma OneDocument(start: int) returns (steps: seq<Step>)
    ensures var empty := Writer([], start, 0, 0, map[], Idle);
            After(start, steps) ==
            System(Queue([], start, 0, map[]), [empty, empty.(docs := [start], phase := Batch(0))])
  {
    var q, empty := Queue([], start, 0, map[]), Writer([], start, 0, 0, map[], Idle);
    hide After;
    steps := TwoWriters(start);
    steps := Extend(start, steps, Begin(1), System(q, [empty, empty.(phase := Batch(0))]));
    assert [] + [start] == [start];
    steps := Extend(start, steps, Process(1), System(q, [empty, empty.(docs := [start], phase := Batch(0))]));
  }

  lemma TwoWriters(start: int) returns (steps: seq<Step>)
    ensures var empty := Writer([], start, 0, 0, map[], Idle);
            After(start, steps) == System(Queue([], start, 0, map[]), [empty, empty])
  {
    var q, empty := Queue([], start, 0, map[]), Writer([], start, 0, 0, map[], Idle);
    steps := Extend(start, [], NewWriter, System(q, [empty]));
    hide After;
    steps := Extend(start, steps, NewWriter, System(q, [empty, empty]));
  }

  lemma Extend(start: int, before: seq<Step>, step: Step, t: System) returns (steps: seq<Step>)
    requires var s := After(start, before); Shape(s) && Enabled(s, step) && Next(s, step) == t
    ensures After(start, steps) == t
  {
    steps := before + [step];
    assert steps[..|before|] == before;
  }
}
