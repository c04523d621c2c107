/** Any number of writers on one delete queue
    (core/index/documentswriterperthread.go): whatever they do in whatever order, list,
    slices and buffers are in a state that the protocol reaches. */
module DeleteRuns {
  import opened Bytes
  import opened DeleteProtocol
  import opened DeleteQueue

  // The protocol's runs

  ghost predicate Reached(s: System) {
    exists steps :: After(-1, steps) == s
  }

  /** One more step. */
  lemma ReachNext(s: System, step: Step)
    requires Reached(s) && (Shape(s) ==> Enabled(s, step))
    ensures Shape(s) && Reached(Next(s, step))
  {
    var steps :| After(-1, steps) == s;
    RunKeeps(steps);
    var more := Extend(-1, steps, step, Next(s, step));
  }

  lemma {:induction false} ReachProcessed(s: System, w: nat, k: nat)
    requires Reached(s) && w < |s.writers| && s.writers[w].phase.Idle?
    ensures Reached(s.(writers := s.writers[w := Processed(s.writers[w], k)]))
  {
    hide Reached;
    var x := s.writers[w];
    if k == 0 {
      ReachNext(s, Begin(w));
      assert x.docs + Repeat(x.seqNo, 0) == x.docs;
    } else {
      ReachProcessed(s, w, k - 1);
      var t := s.(writers := s.writers[w := Processed(x, k - 1)]);
      ReachNext(t, Process(w));
      assert x.docs + Repeat(x.seqNo, k - 1) + [x.seqNo] == x.docs + Repeat(x.seqNo, k);
      assert t.writers[w := Processed(x, k)] == s.writers[w := Processed(x, k)];
    }
  }

  /** A batch of which one document fails. */
  lemma ReachFailed(s: System, w: nat, k: nat)
    requires Reached(s) && w < |s.writers| && s.writers[w].phase.Idle?
    ensures Reached(s.(writers := s.writers[w := Processed(s.writers[w], k).(phase := Idle)]))
  {
    hide Reached;
    ReachProcessed(s, w, k);
    var x := Processed(s.writers[w], k);
    var t := s.(writers := s.writers[w := x]);
    ReachNext(t, Fail(w));
    assert t.writers[w := x.(phase := Idle)] == s.writers[w := x.(phase := Idle)];
  }

  /** A batch with a delete: number it, apply the global slice, apply the writer's. */
  lemma ReachUpdated(s: System, w: nat, k: nat, term: Term)
    requires Reached(s) && w < |s.writers| && s.writers[w].phase.Idle?
    ensures Shape(s)
    ensures var x := Processed(s.writers[w], k);
            Reached(System(StepGlobal(Enqueue(s.queue, term)), s.writers[w := FinishedUpdate(s.queue, x, term)]))
  {
    hide Reached;
    var q, x := s.queue, Processed(s.writers[w], k);
    ReachNext(s, Global);
    ReachProcessed(s, w, k);
    var t := s.(writers := s.writers[w := x]);
    ReachNext(t, Update(w, term));
    var y := StepUpdate(q, x, term);
    var u := System(Enqueue(q, term), s.writers[w := y]);
    assert t.writers[w := y] == s.writers[w := y];
    ReachNext(u, Global);
    var v := System(StepGlobal(Enqueue(q, term)), s.writers[w := y]);
    ReachNext(v, Apply(w));
    AppliedSame(Enqueue(q, term), v.queue, y, y.phase.before);
    assert v.writers[w := FinishedUpdate(q, x, term)] == s.writers[w := FinishedUpdate(q, x, term)];
  }

  /** A batch without a delete. */
  lemma ReachPlain(s: System, w: nat, k: nat)
    requires Reached(s) && w < |s.writers| && s.writers[w].phase.Idle?
    ensures Shape(s)
    ensures var x := Processed(s.writers[w], k);
            Reached(System(s.queue.(seqNo := s.queue.seqNo + 1), s.writers[w := FinishedPlain(s.queue, x)]))
  {
    hide Reached;
    var q, x := s.queue, Processed(s.writers[w], k);
    ReachNext(s, Global);
    ReachProcessed(s, w, k);
    var t := s.(writers := s.writers[w := x]);
    ReachNext(t, Finish(w));
    var y := StepFinish(q, x);
    var u := System(q.(seqNo := q.seqNo + 1), s.writers[w := y]);
    assert t.writers[w := y] == s.writers[w := y];
    FinishedEither(q, x);
    if y.phase.Slice? {
      ReachNext(u, Apply(w));
      AppliedSame(q, u.queue, y, y.phase.before);
      assert u.writers[w := FinishedPlain(q, x)] == s.writers[w := FinishedPlain(q, x)];
    }
  }

  // What is asked of the writers

  /** What may be asked: a new writer, a batch, a flush. */
  datatype Op =
    | OpenWriter
    | BatchOf(w: nat, accepted: seq<bool>, delete: Option<Term>)
    | FlushOf(w: nat, moved: bool)

  ghost predicate Free(s: System, w: nat) {
    w < |s.writers| && s.writers[w].phase.Idle?
  }

  /** One batch: the documents before the first refused one; with all of them the delete, or
      else only the next number, and the writer's slice. */
  ghost predicate BatchStep(s: System, w: nat, accepted: seq<bool>, delete: Option<Term>, t: System)
    requires Free(s, w)
  {
    Shape(s) &&
    var q, x := s.queue, Processed(s.writers[w], Leading(accepted));
    if false in accepted then t == s.(writers := s.writers[w := x.(phase := Idle)])
    else if delete.Some? then
      t == System(StepGlobal(Enqueue(q, delete.value)), s.writers[w := FinishedUpdate(q, x, delete.value)])
    else t == System(q.(seqNo := q.seqNo + 1), s.writers[w := FinishedPlain(q, x)])
  }

  /** An operation of a writer that is not there, or has flushed, does nothing. */
  ghost predicate OpStep(s: System, op: Op, t: System) {
    match op
    case OpenWriter => Shape(s) && t == Next(s, NewWriter)
    case BatchOf(w, accepted, delete) => if Free(s, w) then BatchStep(s, w, accepted, delete, t) else t == s
    case FlushOf(w, moved) => if Free(s, w) then Shape(s) && t == Next(s, PrepareFlush(w, moved)) else t == s
  }

  lemma NoStep(s: System, op: Op)
    requires !op.OpenWriter? && !Free(s, op.w)
    ensures OpStep(s, op, s)
  {
  }

  /** Where a run of operations leads. */
  ghost predicate Leads(ops: seq<Op>, t: System)
    decreases |ops|, 0
  {
    if ops == [] then t == Initial(-1) else exists s :: LeadsThrough(ops, s, t)
  }

  ghost predicate LeadsThrough(ops: seq<Op>, s: System, t: System)
    requires ops != []
    decreases |ops| - 1, 1
  {
    Leads(ops[..|ops| - 1], s) && OpStep(s, ops[|ops| - 1], t)
  }

  lemma LeadsOn(ops: seq<Op>, op: Op, s: System, t: System)
    requires Leads(ops, s) && OpStep(s, op, t)
    ensures Leads(ops + [op], t)
  {
    assert (ops + [op])[..|ops|] == ops;
    assert LeadsThrough(ops + [op], s, t);
  }

  /** Every operation is some steps of the protocol. */
  lemma StepReaches(s: System, op: Op, t: System)
    requires Reached(s) && OpStep(s, op, t)
    ensures Reached(t)
  {
    hide Reached;
    match op
    case OpenWriter => ReachNext(s, NewWriter);
    case BatchOf(w, accepted, delete) =>
      if Free(s, w) {
        if false in accepted {
          ReachFailed(s, w, Leading(accepted));
        } else if delete.Some? {
          ReachUpdated(s, w, Leading(accepted), delete.value);
        } else {
          ReachPlain(s, w, Leading(accepted));
        }
      }
    case FlushOf(w, moved) =>
      if Free(s, w) {
        ReachNext(s, PrepareFlush(w, moved));
      }
  }

  lemma {:induction false} LeadsReaches(ops: seq<Op>, t: System)
    requires Leads(ops, t)
    ensures Reached(t)
  {
    if ops == [] {
      assert After(-1, []) == t;
    } else {
      hide Reached, OpStep;
      var s :| LeadsThrough(ops, s, t);
      LeadsReaches(ops[..|ops| - 1], s);
      StepReaches(s, ops[|ops| - 1], t);
    }
  }

  // What a run of operations says by itself

  function Writers(ops: seq<Op>): nat {
    if ops == [] then 0 else Writers(ops[..|ops| - 1]) + if ops[|ops| - 1].OpenWriter? then 1 else 0
  }

  /** The writer is there and has not flushed. */
  predicate Active(ops: seq<Op>, w: nat) {
    ops != [] &&
    var init, op := ops[..|ops| - 1], ops[|ops| - 1];
    if Active(init, w) then !(op.FlushOf? && op.w == w) else op.OpenWriter? && w == Writers(init)
  }

  /** The terms deleted by the batches of which no document was refused, in order. */
  function DeletedTerms(ops: seq<Op>): seq<Term> {
    if ops == [] then []
    else
      var init, op := ops[..|ops| - 1], ops[|ops| - 1];
      DeletedTerms(init) +
      if op.BatchOf? && Active(init, op.w) && false !in op.accepted && op.delete.Some? then [op.delete.value] else []
  }

  /** How many documents a writer has taken. */
  function TakenDocs(ops: seq<Op>, w: nat): nat {
    if ops == [] then 0
    else
      var init, op := ops[..|ops| - 1], ops[|ops| - 1];
      TakenDocs(init, w) + if op.BatchOf? && op.w == w && Active(init, w) then Leading(op.accepted) else 0
  }

  ghost predicate Tells(ops: seq<Op>, t: System) {
    && |t.writers| == Writers(ops)
    && (forall w: nat :: Free(t, w) <==> Active(ops, w))
    && (forall w: nat | w < |t.writers| :: |t.writers[w].docs| == TakenDocs(ops, w))
    && |t.queue.log| == |DeletedTerms(ops)|
    && forall i | 0 <= i < |t.queue.log| :: t.queue.log[i].term == DeletedTerms(ops)[i]
  }

  /** A batch changes one writer, by the documents taken, and the log by its delete. */
  lemma BatchTells(s: System, w: nat, accepted: seq<bool>, delete: Option<Term>, t: System)
    requires Free(s, w) && BatchStep(s, w, accepted, delete, t)
    ensures |t.writers| == |s.writers| && t.writers[w].phase.Idle?
    ensures forall k: nat | k < |s.writers| && k != w :: t.writers[k] == s.writers[k]
    ensures |t.writers[w].docs| == |s.writers[w].docs| + Leading(accepted)
    ensures if false in accepted || delete.None? then t.queue.log == s.queue.log
            else |t.queue.log| == |s.queue.log| + 1 && t.queue.log[..|s.queue.log|] == s.queue.log
                 && t.queue.log[|s.queue.log|].term == delete.value
  {
    hide AddTerms;
    if false !in accepted && delete.None? {
      FinishedEither(s.queue, Processed(s.writers[w], Leading(accepted)));
    }
  }

  lemma {:induction false} WritersActive(ops: seq<Op>, w: nat)
    ensures Active(ops, w) ==> w < Writers(ops)
  {
    if ops != [] {
      WritersActive(ops[..|ops| - 1], w);
    }
  }

  lemma {:induction false} NotYetTaken(ops: seq<Op>, w: nat)
    requires w >= Writers(ops)
    ensures TakenDocs(ops, w) == 0
  {
    if ops != [] {
      WritersActive(ops[..|ops| - 1], w);
      NotYetTaken(ops[..|ops| - 1], w);
    }
  }

  lemma NothingTold(t: System)
    requires Leads([], t)
    ensures Tells([], t)
  {
  }

  lemma OpenTells(init: seq<Op>, s: System, t: System)
    requires Tells(init, s) && OpStep(s, OpenWriter, t)
    ensures Tells(init + [OpenWriter], t)
  {
    hide Leading, Next, DeletedTerms, TakenDocs, Writers, Active;
    var ops := init + [OpenWriter];
    LastOp(init, OpenWriter);
    assert t == s.(writers := s.writers + [t.writers[|s.writers|]]) by { NewWriterIs(s); }
    NewWriterIs(s);
    NotYetTaken(init, Writers(init));
    forall w: nat ensures Active(ops, w) <==> Free(t, w) {
      WritersActive(init, w);
      assert Free(s, w) <==> Active(init, w);
    }
  }

  lemma NewWriterIs(s: System)
    requires Shape(s)
    ensures var t := Next(s, NewWriter);
            && |t.writers| == |s.writers| + 1 && t.writers[..|s.writers|] == s.writers && t.queue == s.queue
            && t.writers[|s.writers|].phase.Idle? && t.writers[|s.writers|].docs == []
  {
  }

  /** What the last operation adds. */
  lemma LastOp(init: seq<Op>, op: Op)
    ensures var ops := init + [op];
            && Writers(ops) == Writers(init) + (if op.OpenWriter? then 1 else 0)
            && DeletedTerms(ops) == DeletedTerms(init) +
                 (if op.BatchOf? && Active(init, op.w) && false !in op.accepted && op.delete.Some?
                  then [op.delete.value] else [])
            && (forall w: nat :: Active(ops, w) <==>
                  if Active(init, w) then !(op.FlushOf? && op.w == w) else op.OpenWriter? && w == Writers(init))
            && forall w: nat :: TakenDocs(ops, w) == TakenDocs(init, w) +
                 if op.BatchOf? && op.w == w && Active(init, w) then Leading(op.accepted) else 0
  {
    hide Leading;
    assert (init + [op])[..|init|] == init;
  }

  lemma BatchOpTells(init: seq<Op>, op: Op, s: System, t: System)
    requires Tells(init, s) && OpStep(s, op, t) && op.BatchOf?
    ensures Tells(init + [op], t)
  {
    hide Leading, BatchStep, DeletedTerms, TakenDocs, Writers, Active;
    LastOp(init, op);
    assert Free(s, op.w) <==> Active(init, op.w);
    if Free(s, op.w) {
      BatchTells(s, op.w, op.accepted, op.delete, t);
      forall w: nat ensures Free(t, w) <==> Free(s, w) {
      }
      forall i | 0 <= i < |s.queue.log| ensures t.queue.log[i] == s.queue.log[i] {
        assert t.queue.log[..|s.queue.log|][i] == s.queue.log[i];
      }
    } else {
      assert DeletedTerms(init) + [] == DeletedTerms(init);
    }
  }

  lemma FlushTells(init: seq<Op>, op: Op, s: System, t: System)
    requires Tells(init, s) && OpStep(s, op, t) && op.FlushOf?
    ensures Tells(init + [op], t)
  {
    hide Leading, AddTerms, DeletedTerms, TakenDocs, Writers, Active;
    LastOp(init, op);
    assert DeletedTerms(init) + [] == DeletedTerms(init);
    assert Free(s, op.w) <==> Active(init, op.w);
    forall w: nat ensures Free(t, w) <==> Free(s, w) && w != op.w {
    }
  }

  /** The log holds exactly the deletes of the run, in order, and every writer the documents
      that it took. */
  lemma {:induction false} LeadsTells(ops: seq<Op>, t: System)
    requires Leads(ops, t)
    ensures Tells(ops, t)
  {
    hide OpStep, Tells, Writers, Active, DeletedTerms, TakenDocs;
    if ops == [] {
      NothingTold(t);
    } else {
      var init, op := ops[..|ops| - 1], ops[|ops| - 1];
      var s :| LeadsThrough(ops, s, t);
      LeadsTells(init, s);
      assert ops == init + [op];
      match op {
        case OpenWriter => OpenTells(init, s, t);
        case BatchOf(_, _, _) => BatchOpTells(init, op, s, t);
        case FlushOf(_, _) => FlushTells(init, op, s, t);
      }
    }
  }

  // The objects

  /** The writers are different objects, with slices and buffers of their own. */
  ghost predicate Apart(ws: seq<DocumentsWriterPerThread>) {
    forall i, j | 0 <= i < j < |ws| ::
      ws[i] != ws[j] && ws[i].deleteSlice != ws[j].deleteSlice && ws[i].pendingUpdates != ws[j].pendingUpdates
  }

  ghost function Slices(ws: seq<DocumentsWriterPerThread>): set<object> {
    set w <- ws :: w.deleteSlice
  }

  ghost function Buffers(ws: seq<DocumentsWriterPerThread>): set<object> {
    set w <- ws :: w.pendingUpdates
  }

  /** All writers share the queue, and none is in the middle of a batch. */
  ghost predicate Together(queue: DocumentsWriterDeleteQueue, ws: seq<DocumentsWriterPerThread>)
    reads queue, queue.nodes, queue.globalSlice, queue.globalBufferedUpdates, ws, Slices(ws)
  {
    && queue.Valid() && Apart(ws)
    && forall i | 0 <= i < |ws| ::
         ws[i].deleteQueue == queue && ws[i].deleteSlice in Slices(ws) && ws[i].Valid()
         && (ws[i].phase.Idle? || ws[i].phase.Flushed?)
  }

  ghost function Views(ws: seq<DocumentsWriterPerThread>): (r: seq<Writer>)
    reads ws, Buffers(ws)
    ensures |r| == |ws|
  {
    seq(|ws|, i requires 0 <= i < |ws| reads ws, Buffers(ws) =>
      assert ws[i].pendingUpdates in Buffers(ws); ws[i].View())
  }

  ghost function Seen(queue: DocumentsWriterDeleteQueue, ws: seq<DocumentsWriterPerThread>): System
    reads queue, queue.globalBufferedUpdates, ws, Buffers(ws)
  {
    System(queue.View(), Views(ws))
  }

  /** The objects of a batch of one writer: the others stay as they are. */
  method RunBatch(queue: DocumentsWriterDeleteQueue, ws: seq<DocumentsWriterPerThread>, w: nat,
                  accepted: seq<bool>, term: Option<Term>) returns (all: bool)
    requires Together(queue, ws) && w < |ws| && ws[w].phase.Idle?
    modifies queue, queue.tail, queue.globalSlice, queue.globalBufferedUpdates,
             ws[w], ws[w].deleteSlice, ws[w].pendingUpdates
    ensures Together(queue, ws) && Views(ws) == old(Views(ws))[w := ws[w].View()] && ws[w].phase.Idle?
    ensures queue.tail == old(queue.tail) || fresh(queue.tail)
    ensures all <==> false !in accepted
    ensures var q, x := old(queue.View()), Processed(old(ws[w].View()), Leading(accepted));
            if !all then
              queue.View() == q && ws[w].View() == x.(phase := Idle)
            else if term.Some? then
              queue.View() == StepGlobal(Enqueue(q, term.value)) && ws[w].View() == FinishedUpdate(q, x, term.value)
            else
              queue.View() == q.(seqNo := q.seqNo + 1) && ws[w].View() == FinishedPlain(q, x)
  {
    hide Chain, StepGlobal, Enqueue, FinishedUpdate, FinishedPlain, Processed, Leading;
    var node: Node? := null;
    if term.Some? {
      node := new Node(term);
    }
    var r := ws[w].UpdateDocuments(accepted, node);
    all := r.Some?;
    forall i | 0 <= i < |ws| && i != w ensures ws[i].Valid() && ws[i].View() == old(ws[i].View()) {
      assert i < w || w < i;
    }
  }

  lemma SeenShape(queue: DocumentsWriterDeleteQueue, ws: seq<DocumentsWriterPerThread>, w: nat)
    requires Together(queue, ws)
    ensures Shape(Seen(queue, ws)) && (Free(Seen(queue, ws), w) <==> w < |ws| && ws[w].phase.Idle?)
  {
    hide Chain;
  }

  /** One writer's batch. */
  method Batch(queue: DocumentsWriterDeleteQueue, ws: seq<DocumentsWriterPerThread>, w: nat,
               accepted: seq<bool>, term: Option<Term>)
    requires Together(queue, ws) && w < |ws| && ws[w].phase.Idle?
    modifies queue, queue.tail, queue.globalSlice, queue.globalBufferedUpdates,
             ws[w], ws[w].deleteSlice, ws[w].pendingUpdates
    ensures Together(queue, ws) && OpStep(old(Seen(queue, ws)), BatchOf(w, accepted, term), Seen(queue, ws))
    ensures forall k | 0 <= k < |ws| :: ws[k].phase == old(ws[k].phase)
    ensures queue.tail == old(queue.tail) || fresh(queue.tail)
  {
    hide Together, Processed, FinishedUpdate, FinishedPlain, StepGlobal, Enqueue, Shape, Leading;
    ghost var s := Seen(queue, ws);
    SeenShape(queue, ws, w);
    assert forall k | 0 <= k < |ws| :: s.writers[k].phase == ws[k].phase;
    var _ := RunBatch(queue, ws, w, accepted, term);
    assert forall k | 0 <= k < |ws| :: Views(ws)[k].phase == ws[k].phase;
  }

  /** One writer's flush. */
  method Flush(queue: DocumentsWriterDeleteQueue, ws: seq<DocumentsWriterPerThread>, w: nat, moved: bool)
    requires Together(queue, ws) && w < |ws| && ws[w].phase.Idle?
    modifies ws[w], ws[w].deleteSlice, ws[w].pendingUpdates
    ensures Together(queue, ws) && OpStep(old(Seen(queue, ws)), FlushOf(w, moved), Seen(queue, ws))
    ensures ws[w].phase.Flushed? && forall k | 0 <= k < |ws| && k != w :: ws[k].phase == old(ws[k].phase)
  {
    hide Together, StepPrepareFlush, Shape;
    ghost var s := Seen(queue, ws);
    SeenShape(queue, ws, w);
    assert forall k | 0 <= k < |ws| :: s.writers[k].phase == ws[k].phase;
    RunFlush(queue, ws, w, moved);
    assert forall k | 0 <= k < |ws| :: Views(ws)[k].phase == ws[k].phase;
  }

  method RunFlush(queue: DocumentsWriterDeleteQueue, ws: seq<DocumentsWriterPerThread>, w: nat, moved: bool)
    requires Together(queue, ws) && w < |ws| && ws[w].phase.Idle?
    modifies ws[w], ws[w].deleteSlice, ws[w].pendingUpdates
    ensures Together(queue, ws) && Views(ws) == old(Views(ws))[w := ws[w].View()]
    ensures queue.View() == old(queue.View()) && Shaped(old(queue.View()), old(ws[w].View()))
    ensures ws[w].View() == StepPrepareFlush(old(queue.View()), old(ws[w].View()), moved) && ws[w].phase.Flushed?
  {
    hide Chain, StepPrepareFlush;
    ws[w].PrepareFlush(moved);
    forall i | 0 <= i < |ws| && i != w ensures ws[i].Valid() && ws[i].View() == old(ws[i].View()) {
      assert i < w || w < i;
    }
  }

  ghost predicate Shaped(q: Queue, w: Writer) {
    w.head <= w.tail <= |q.log|
  }

  /** A new writer joins the others. */
  method Open(queue: DocumentsWriterDeleteQueue, ws: seq<DocumentsWriterPerThread>)
    returns (more: seq<DocumentsWriterPerThread>)
    requires Together(queue, ws)
    ensures Together(queue, more) && OpStep(old(Seen(queue, ws)), OpenWriter, Seen(queue, more))
    ensures |more| == |ws| + 1 && ws <= more
    ensures more[|ws|].phase.Idle? && fresh(more[|ws|]) && fresh(more[|ws|].deleteSlice)
            && fresh(more[|ws|].pendingUpdates)
  {
    hide Chain;
    ghost var s := Seen(queue, ws);
    SeenShape(queue, ws, 0);
    var x := new DocumentsWriterPerThread(queue);
    more := ws + [x];
    forall i | 0 <= i < |ws| ensures more[i].Valid() {
      assert more[i] == ws[i];
    }
    assert Views(more) == s.writers + [x.View()];
    assert Seen(queue, more) == Next(s, NewWriter);
  }

  /** Which writers have not flushed. */
  ghost predicate Unflushed(ws: seq<DocumentsWriterPerThread>, idle: seq<bool>)
    reads ws
  {
    |idle| == |ws| && forall k | 0 <= k < |ws| :: idle[k] <==> ws[k].phase.Idle?
  }

  lemma InFrame(ws: seq<DocumentsWriterPerThread>, w: nat)
    requires w < |ws|
    ensures ws[w] in ws && ws[w].deleteSlice in Slices(ws) && ws[w].pendingUpdates in Buffers(ws)
  {
  }

  method TryBatch(queue: DocumentsWriterDeleteQueue, ws: seq<DocumentsWriterPerThread>, idle: seq<bool>, w: nat,
                  accepted: seq<bool>, delete: Option<Term>)
    requires Together(queue, ws) && Unflushed(ws, idle)
    modifies queue, queue.tail, queue.globalSlice, queue.globalBufferedUpdates, ws, Slices(ws), Buffers(ws)
    ensures Together(queue, ws) && Unflushed(ws, idle)
    ensures OpStep(old(Seen(queue, ws)), BatchOf(w, accepted, delete), Seen(queue, ws))
    ensures queue.tail == old(queue.tail) || fresh(queue.tail)
  {
    hide Together, Seen, Shape, OpStep, Free, Slices, Buffers;
    SeenShape(queue, ws, w);
    if w < |ws| && idle[w] {
      InFrame(ws, w);
      Batch(queue, ws, w, accepted, delete);
    } else {
      NoStep(Seen(queue, ws), BatchOf(w, accepted, delete));
    }
  }

  method TryFlush(queue: DocumentsWriterDeleteQueue, ws: seq<DocumentsWriterPerThread>, idle: seq<bool>, w: nat,
                  moved: bool) returns (idle': seq<bool>)
    requires Together(queue, ws) && Unflushed(ws, idle)
    modifies ws, Slices(ws), Buffers(ws)
    ensures Together(queue, ws) && Unflushed(ws, idle')
    ensures OpStep(old(Seen(queue, ws)), FlushOf(w, moved), Seen(queue, ws))
  {
    hide Together, Seen, Shape, OpStep, Free, Slices, Buffers;
    SeenShape(queue, ws, w);
    if w < |ws| && idle[w] {
      InFrame(ws, w);
      Flush(queue, ws, w, moved);
      idle' := idle[w := false];
    } else {
      NoStep(Seen(queue, ws), FlushOf(w, moved));
      idle' := idle;
    }
  }

  method RunOp(queue: DocumentsWriterDeleteQueue, ws: seq<DocumentsWriterPerThread>, idle: seq<bool>, op: Op)
    returns (ws': seq<DocumentsWriterPerThread>, idle': seq<bool>)
    requires Together(queue, ws) && Unflushed(ws, idle)
    modifies queue, queue.tail, queue.globalSlice, queue.globalBufferedUpdates, ws, Slices(ws), Buffers(ws)
    ensures Together(queue, ws') && Unflushed(ws', idle') && OpStep(old(Seen(queue, ws)), op, Seen(queue, ws'))
    ensures (queue.tail == old(queue.tail) || fresh(queue.tail)) && ws <= ws'
    ensures forall k | |ws| <= k < |ws'| ::
              fresh(ws'[k]) && fresh(ws'[k].deleteSlice) && fresh(ws'[k].pendingUpdates)
  {
    ws', idle' := ws, idle;
    match op {
      case OpenWriter =>
        hide Together, Seen, OpStep;
        ws' := Open(queue, ws);
        idle' := idle + [true];
      case BatchOf(w, accepted, delete) =>
        hide Together, Seen, OpStep, Unflushed;
        TryBatch(queue, ws, idle, w, accepted, delete);
      case FlushOf(w, moved) =>
        hide Together, Seen, OpStep, Unflushed;
        idle' := TryFlush(queue, ws, idle, w, moved);
    }
  }

  /** Any operations of any number of writers, in any order: the objects end where the
      operations lead, which is a state that the protocol reaches, so what holds of its runs
      holds of them; and the log holds the deletes of the run, in order, and every writer the
      documents that it took. */
  method RunAll(ops: seq<Op>) returns (queue: DocumentsWriterDeleteQueue, ws: seq<DocumentsWriterPerThread>)
    ensures Together(queue, ws) && Leads(ops, Seen(queue, ws)) && Reached(Seen(queue, ws))
    ensures Tells(ops, Seen(queue, ws))
  {
    hide Reached, Together, Seen, Unflushed, Leads, OpStep, Tells, Slices, Buffers, DocumentsWriterDeleteQueue.Valid,
      DocumentsWriterDeleteQueue.View;
    queue := new DocumentsWriterDeleteQueue(-1);
    StartsReached(queue);
    ws := [];
    var idle := [];
    assert ops[..0] == [];
    for i := 0 to |ops|
      invariant Together(queue, ws) && Leads(ops[..i], Seen(queue, ws)) && Unflushed(ws, idle)
      invariant fresh(queue) && fresh(queue.tail) && fresh(queue.globalSlice) && fresh(queue.globalBufferedUpdates)
      invariant forall k | 0 <= k < |ws| ::
                  fresh(ws[k]) && fresh(ws[k].deleteSlice) && fresh(ws[k].pendingUpdates)
    {
      ghost var s := Seen(queue, ws);
      AllFresh(ws);
      ws, idle := RunOp(queue, ws, idle, ops[i]);
      LeadsOn(ops[..i], ops[i], s, Seen(queue, ws));
      assert ops[..i + 1] == ops[..i] + [ops[i]];
    }
    assert ops[..|ops|] == ops;
    LeadsReaches(ops, Seen(queue, ws));
    LeadsTells(ops, Seen(queue, ws));
  }

  lemma AllFresh(ws: seq<DocumentsWriterPerThread>)
    ensures forall o :: o in Slices(ws) <==> exists k :: 0 <= k < |ws| && ws[k].deleteSlice == o
    ensures forall o :: o in Buffers(ws) <==> exists k :: 0 <= k < |ws| && ws[k].pendingUpdates == o
  {
  }

  lemma StartsReached(queue: DocumentsWriterDeleteQueue)
    requires queue.Valid() && queue.View() == Initial(-1).queue
    ensures Together(queue, []) && Leads([], Seen(queue, [])) && Unflushed([], []) && queue.tail in queue.nodes
  {
  }

  /** So among any number of writer objects, after any operations, a document of one of them
      counts as deleted by a term exactly when the part of the queue that the writer has
      applied holds a later delete of it. */
  lemma ObjectsSerializable(queue: DocumentsWriterDeleteQueue, ws: seq<DocumentsWriterPerThread>, w: nat, term: Term,
                            d: nat)
    requires Together(queue, ws) && Reached(Seen(queue, ws)) && w < |ws| && d < |ws[w].docs|
    ensures Deleted(ws[w].pendingUpdates.deleteTerms, term, d) <==> Covered(queue.log, ws[w].head, term, ws[w].docs[d])
  {
    var steps :| After(-1, steps) == Seen(queue, ws);
    assert Views(ws)[w] == ws[w].View();
    Serializable(steps, w, term, d);
  }
}
