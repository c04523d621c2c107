/** The delete queue as objects (core/index/documentswriterdeletequeue.go, node.go,
    documentswriterperthread.go): a linked list with one slice per writer and one
    for the whole index, each method doing the steps of the protocol. */
module DeleteQueue {
  import opened Bytes
  import opened DeleteProtocol

  class BufferedUpdates {
    var deleteTerms: map<Term, int>

    constructor ()
      ensures deleteTerms == map[]
    {
      deleteTerms := map[];
    }

    method AddTerm(term: Term, docIDUpto: int)
      modifies this
      ensures deleteTerms == DeleteProtocol.AddTerm(old(deleteTerms), term, docIDUpto)
    {
      if term in deleteTerms && deleteTerms[term] > docIDUpto {
        return;
      }
      deleteTerms := deleteTerms[term := docIDUpto];
    }
  }

  /** A node of the queue; the first one carries nothing. */
  class Node {
    var next: Node?
    const item: Option<Term>

    constructor (item: Option<Term>)
      ensures next == null && this.item == item
    {
      next := null;
      this.item := item;
    }

    method Apply(bufferedDeletes: BufferedUpdates, docIDUpto: int)
      requires item.Some?
      modifies bufferedDeletes
      ensures bufferedDeletes.deleteTerms ==
              DeleteProtocol.AddTerm(old(bufferedDeletes.deleteTerms), item.value, docIDUpto)
    {
      bufferedDeletes.AddTerm(item.value, docIDUpto);
    }
  }

  /** The linked list behind a log of deletes. */
  ghost predicate Chain(nodes: seq<Node>, log: seq<Delete>)
    reads nodes
  {
    && |nodes| == |log| + 1
    && (forall i, j | 0 <= i < j < |nodes| :: nodes[i] != nodes[j])
    && (forall i | 0 <= i < |log| :: nodes[i].next == nodes[i + 1])
    && (forall i | 0 <= i < |log| :: nodes[i + 1].item == Some(log[i].term))
    && nodes[|log|].next == null
  }

  class DeleteSlice {
    var sliceHead: Node
    var sliceTail: Node

    constructor (currentTail: Node)
      ensures sliceHead == sliceTail == currentTail
    {
      sliceHead, sliceTail := currentTail, currentTail;
    }

    ghost predicate Spans(nodes: seq<Node>, head: nat, tail: nat)
      reads this
    {
      head <= tail < |nodes| && sliceHead == nodes[head] && sliceTail == nodes[tail]
    }

    method Reset()
      modifies this
      ensures sliceHead == sliceTail == old(sliceTail)
    {
      sliceHead := sliceTail;
    }

    /** Apply: every node after the head up to the tail, in order. */
    method Apply(del: BufferedUpdates, docIDUpto: int, ghost nodes: seq<Node>, ghost log: seq<Delete>,
                 ghost head: nat, ghost tail: nat)
      requires Chain(nodes, log) && Spans(nodes, head, tail)
      modifies this, del
      ensures Spans(nodes, tail, tail)
      ensures del.deleteTerms == AddTerms(old(del.deleteTerms), log[head..tail], docIDUpto)
    {
      if sliceHead == sliceTail {
        assert head == tail;
        return;
      }
      var current := sliceHead;
      ghost var i := head;
      while true
        invariant head <= i < tail && current == nodes[i] && Spans(nodes, head, tail)
        invariant del.deleteTerms == AddTerms(old(del.deleteTerms), log[head..i], docIDUpto)
        decreases tail - i
      {
        current := current.next;
        AppliedOneMore(old(del.deleteTerms), log, head, i, docIDUpto);
        i := i + 1;
        current.Apply(del, docIDUpto);
        if current == sliceTail {
          assert i == tail;
          break;
        }
      }
      Reset();
    }
  }

  lemma AppliedOneMore(pending: map<Term, int>, log: seq<Delete>, head: nat, i: nat, upTo: int)
    requires head <= i < |log|
    ensures AddTerms(pending, log[head..i + 1], upTo) ==
            DeleteProtocol.AddTerm(AddTerms(pending, log[head..i], upTo), log[i].term, upTo)
  {
    assert log[head..i + 1][..i - head] == log[head..i];
  }

  class DocumentsWriterDeleteQueue {
    var tail: Node
    var nextSeqNo: int
    const globalSlice: DeleteSlice
    const globalBufferedUpdates: BufferedUpdates

    ghost var nodes: seq<Node>
    ghost var log: seq<Delete>
    ghost var globalHead: nat

    ghost predicate Valid()
      reads this, nodes, globalSlice, globalBufferedUpdates
    {
      && |nodes| == |log| + 1 && Chain(nodes, log) && tail == nodes[|log|]
      && globalSlice.Spans(nodes, globalHead, globalHead)
    }

    /** The queue as the protocol sees it. */
    ghost function View(): Queue
      reads this, globalBufferedUpdates
    {
      Queue(log, nextSeqNo, globalHead, globalBufferedUpdates.deleteTerms)
    }

    constructor (startSeqNo: int)
      ensures Valid() && View() == Initial(startSeqNo).queue && fresh(nodes)
      ensures fresh(globalSlice) && fresh(globalBufferedUpdates)
    {
      var node := new Node(None);
      tail := node;
      nextSeqNo := startSeqNo;
      globalSlice := new DeleteSlice(node);
      globalBufferedUpdates := new BufferedUpdates();
      nodes, log, globalHead := [node], [], 0;
    }

    method GetNextSequenceNumber() returns (seqNo: int)
      modifies this`nextSeqNo
      ensures seqNo == nextSeqNo == old(nextSeqNo) + 1
    {
      nextSeqNo := nextSeqNo + 1;
      return nextSeqNo;
    }

    /** add: the node becomes the new tail. */
    method Append(newNode: Node) returns (seqNo: int)
      requires Valid() && newNode !in nodes && newNode.next == null && newNode.item.Some?
      modifies this`tail, this`nextSeqNo, this`nodes, this`log, tail
      ensures Valid() && nodes == old(nodes) + [newNode]
      ensures View() == Enqueue(old(View()), newNode.item.value) && seqNo == nextSeqNo
    {
      assert forall i | 0 <= i < |log| :: nodes[i] != tail;
      tail.next := newNode;
      tail := newNode;
      nodes := nodes + [newNode];
      seqNo := GetNextSequenceNumber();
      log := log + [Delete(newNode.item.value, seqNo)];
    }

    method Add(deleteNode: Node, slice: DeleteSlice) returns (seqNo: int)
      requires Valid() && deleteNode !in nodes && deleteNode.next == null && deleteNode.item.Some?
      requires slice != globalSlice
      modifies this, tail, slice`sliceTail, globalSlice, globalBufferedUpdates
      ensures Valid() && nodes == old(nodes) + [deleteNode]
      ensures View() == StepGlobal(Enqueue(old(View()), deleteNode.item.value)) && seqNo == nextSeqNo
      ensures slice.sliceTail == deleteNode
    {
      seqNo := Append(deleteNode);
      slice.sliceTail := deleteNode;
      TryApplyGlobalSlice();
    }

    /** UpdateSlice: moves a slice to the end of the queue; negative when it moved. */
    method UpdateSlice(slice: DeleteSlice) returns (seqNo: int)
      requires Valid() && slice != globalSlice
      modifies this`nextSeqNo, slice`sliceTail
      ensures Valid() && View() == old(View()).(seqNo := old(nextSeqNo) + 1)
      ensures slice.sliceTail == tail
      ensures seqNo == if old(slice.sliceTail) != tail then 0 - nextSeqNo else nextSeqNo
    {
      seqNo := GetNextSequenceNumber();
      if slice.sliceTail != tail {
        slice.sliceTail := tail;
        seqNo := 0 - seqNo;
      }
    }

    method UpdateSliceNoSeqNo(slice: DeleteSlice) returns (moved: bool)
      modifies slice`sliceTail
      ensures slice.sliceTail == tail && (moved <==> old(slice.sliceTail) != tail)
    {
      moved := slice.sliceTail != tail;
      if moved {
        slice.sliceTail := tail;
      }
    }

    method TryApplyGlobalSlice()
      requires Valid()
      modifies this`globalHead, globalSlice, globalBufferedUpdates
      ensures Valid() && View() == StepGlobal(old(View()))
    {
      var moved := UpdateSliceNoSeqNo(globalSlice);
      assert log[globalHead..|log|] == log[globalHead..];
      if moved {
        globalSlice.Apply(globalBufferedUpdates, MAX_INT32, nodes, log, globalHead, |log|);
      } else {
        assert globalHead == |log|;
      }
      globalHead := |log|;
    }

    method NewSlice() returns (slice: DeleteSlice)
      requires Valid()
      ensures fresh(slice) && slice.Spans(nodes, |log|, |log|)
    {
      slice := new DeleteSlice(tail);
    }
  }

  /** A writer's documents after k more have been processed in a new batch. */
  /** How many documents of a batch are processed: those before the first that cannot be. */
  function Leading(accepted: seq<bool>): (k: nat)
    ensures k <= |accepted| && (k == |accepted| <==> false !in accepted)
    ensures k < |accepted| ==> !accepted[k] && forall j | 0 <= j < k :: accepted[j]
  {
    if accepted == [] || !accepted[0] then 0 else Leading(accepted[1..]) + 1
  }

  ghost function Processed(w: Writer, k: nat): Writer {
    w.(docs := w.docs + Repeat(w.seqNo, k), phase := Batch(|w.docs|))
  }

  /** A finished batch: the queue operation, then the slice if there is one to apply. */
  ghost function FinishedPlain(q: Queue, w: Writer): Writer
    requires w.head <= w.tail <= |q.log| && w.phase.Batch? && w.phase.before <= |w.docs|
  {
    var x := StepFinish(q, w);
    if x.phase.Slice? then StepApply(q, x) else x
  }

  ghost function FinishedUpdate(q: Queue, w: Writer, term: Term): Writer
    requires w.head <= |q.log| && w.phase.Batch? && w.phase.before <= |w.docs|
  {
    StepApply(Enqueue(q, term), StepUpdate(q, w, term))
  }

  lemma FinishedEither(q: Queue, w: Writer)
    requires w.head <= w.tail <= |q.log| && w.phase.Batch? && w.phase.before <= |w.docs|
    ensures SliceNumber(q, w) < 0 ==>
              FinishedPlain(q, w) == Applied(q, StepFinish(q, w), w.phase.before).(phase := Idle)
    ensures SliceNumber(q, w) >= 0 ==> FinishedPlain(q, w) == StepFinish(q, w)
  {
  }

  lemma AppliedSame(q: Queue, q': Queue, w: Writer, upTo: int)
    requires w.head <= w.tail <= |q.log| && q.log == q'.log
    ensures Applied(q, w, upTo) == Applied(q', w, upTo)
  {
  }

  class DocumentsWriterPerThread {
    const deleteQueue: DocumentsWriterDeleteQueue
    const deleteSlice: DeleteSlice
    const pendingUpdates: BufferedUpdates
    var numDocsInRAM: nat

    ghost var docs: seq<int>     // the sequence number of every document
    ghost var seqNo: int         // and of the last operation
    ghost var head: nat
    ghost var tail: nat
    ghost var phase: Phase

    ghost predicate Valid()
      reads this, deleteQueue, deleteQueue.nodes, deleteQueue.globalSlice, deleteQueue.globalBufferedUpdates,
            deleteSlice
    {
      && deleteQueue.Valid() && deleteSlice.Spans(deleteQueue.nodes, head, tail)
      && numDocsInRAM == |docs|
      && deleteSlice != deleteQueue.globalSlice && pendingUpdates != deleteQueue.globalBufferedUpdates
      && (phase.Batch? || phase.Slice? ==> phase.before <= |docs|)
    }

    /** The writer as the protocol sees it. */
    ghost function View(): Writer
      reads this, pendingUpdates
    {
      Writer(docs, seqNo, head, tail, pendingUpdates.deleteTerms, phase)
    }

    constructor (deleteQueue: DocumentsWriterDeleteQueue)
      requires deleteQueue.Valid()
      ensures Valid() && this.deleteQueue == deleteQueue && fresh(deleteSlice) && fresh(pendingUpdates)
      ensures View() == Writer([], deleteQueue.nextSeqNo, |deleteQueue.log|, |deleteQueue.log|, map[], Idle)
    {
      var slice := deleteQueue.NewSlice();
      this.deleteQueue, deleteSlice := deleteQueue, slice;
      pendingUpdates := new BufferedUpdates();
      numDocsInRAM := 0;
      docs, seqNo, phase := [], deleteQueue.nextSeqNo, Idle;
      head, tail := |deleteQueue.log|, |deleteQueue.log|;
    }

    /** deleteSlice.Apply on the pending updates: the protocol's step. */
    method ApplySlice(docIdUpTo: nat)
      requires Valid()
      modifies this`head, deleteSlice, pendingUpdates
      ensures Valid() && deleteQueue.View() == old(deleteQueue.View())
      ensures View() == Applied(deleteQueue.View(), old(View()), docIdUpTo) && head == tail
    {
      deleteSlice.Apply(pendingUpdates, docIdUpTo, deleteQueue.nodes, deleteQueue.log, head, tail);
      head := tail;
    }

    /** finishDocuments with a delete. */
    method FinishUpdate(deleteNode: Node, docIdUpTo: nat) returns (r: int)
      requires Valid() && phase == Batch(docIdUpTo)
      requires deleteNode !in deleteQueue.nodes && deleteNode.next == null && deleteNode.item.Some?
      modifies this, deleteQueue, deleteQueue.tail, deleteQueue.globalSlice, deleteQueue.globalBufferedUpdates,
               deleteSlice, pendingUpdates
      ensures Valid() && phase.Idle? && r == old(deleteQueue.nextSeqNo) + 1
      ensures deleteQueue.View() == StepGlobal(Enqueue(old(deleteQueue.View()), deleteNode.item.value))
      ensures View() == FinishedUpdate(old(deleteQueue.View()), old(View()), deleteNode.item.value)
      ensures deleteQueue.nodes == old(deleteQueue.nodes) + [deleteNode]
    {
      hide Chain, AddTerms, Renumber, StepGlobal, StepUpdate, Applied;
      ghost var q := deleteQueue.View();
      r := AddUpdate(deleteNode, docIdUpTo);
      ghost var w := View();
      ApplySlice(docIdUpTo);
      phase := Idle;
      SameLog(Enqueue(q, deleteNode.item.value));
      AppliedSame(Enqueue(q, deleteNode.item.value), deleteQueue.View(), w, docIdUpTo);
    }

    /** Add with the writer's own slice, and the numbers of the batch. */
    method AddUpdate(deleteNode: Node, docIdUpTo: nat) returns (r: int)
      requires Valid() && phase == Batch(docIdUpTo)
      requires deleteNode !in deleteQueue.nodes && deleteNode.next == null && deleteNode.item.Some?
      modifies this`docs, this`seqNo, this`tail, this`phase, deleteQueue, deleteQueue.tail, deleteQueue.globalSlice,
               deleteQueue.globalBufferedUpdates, deleteSlice
      ensures Valid() && phase == Slice(docIdUpTo) && r == old(deleteQueue.nextSeqNo) + 1
      ensures deleteQueue.View() == StepGlobal(Enqueue(old(deleteQueue.View()), deleteNode.item.value))
      ensures View() == StepUpdate(old(deleteQueue.View()), old(View()), deleteNode.item.value)
      ensures deleteQueue.nodes == old(deleteQueue.nodes) + [deleteNode]
    {
      hide Chain, AddTerms, Renumber, StepGlobal;
      ghost var q := deleteQueue.View();
      OneMore(q, deleteNode.item.value);
      SameLog(Enqueue(q, deleteNode.item.value));
      r := deleteQueue.Add(deleteNode, deleteSlice);
      docs, seqNo, tail, phase := Renumber(docs, docIdUpTo, r), r, |q.log| + 1, Slice(docIdUpTo);
    }

    /** UpdateSlice on the writer's own slice. */
    method MoveSlice(docIdUpTo: nat) returns (r: int)
      requires Valid() && phase == Batch(docIdUpTo)
      modifies this`docs, this`seqNo, this`tail, deleteQueue`nextSeqNo, deleteSlice`sliceTail
      ensures Valid() && View() == Moved(old(deleteQueue.View()), old(View()))
      ensures r == SliceNumber(old(deleteQueue.View()), old(View()))
      ensures deleteQueue.View() == old(deleteQueue.View()).(seqNo := old(deleteQueue.nextSeqNo) + 1)
    {
      assert deleteSlice.sliceTail == deleteQueue.tail <==> tail == |deleteQueue.log|;
      hide Chain, Renumber;
      r := deleteQueue.UpdateSlice(deleteSlice);
      docs, seqNo, tail := Renumber(docs, docIdUpTo, deleteQueue.nextSeqNo), deleteQueue.nextSeqNo, |deleteQueue.log|;
    }

    /** finishDocuments without a delete. */
    method FinishPlain(docIdUpTo: nat) returns (r: int)
      requires Valid() && phase == Batch(docIdUpTo)
      modifies this, deleteQueue`nextSeqNo, deleteSlice, pendingUpdates
      ensures Valid() && phase.Idle? && (old(deleteQueue.nextSeqNo) >= -1 ==> r == old(deleteQueue.nextSeqNo) + 1)
      ensures deleteQueue.View() == old(deleteQueue.View()).(seqNo := old(deleteQueue.nextSeqNo) + 1)
      ensures View() == FinishedPlain(old(deleteQueue.View()), old(View()))
    {
      hide Chain, Renumber, Applied, FinishedPlain;
      ghost var q, w := deleteQueue.View(), View();
      r := MoveSlice(docIdUpTo);
      FinishedEither(q, w);
      if r < 0 {
        phase := Slice(docIdUpTo);
        r := 0 - r;
        ApplySlice(docIdUpTo);
        AppliedSame(q, deleteQueue.View(), StepFinish(q, w), docIdUpTo);
      } else {
        deleteSlice.Reset();
        head := tail;
      }
      phase := Idle;
    }

    /** updateDocuments: `accepted` says of each document whether it can be
        processed; the first that cannot ends the batch, and the ones before it
        stay. */
    method UpdateDocuments(accepted: seq<bool>, deleteNode: Node?) returns (r: Option<int>)
      requires Valid() && phase.Idle?
      requires deleteNode != null ==>
                 deleteNode !in deleteQueue.nodes && deleteNode.next == null && deleteNode.item.Some?
      modifies this, deleteQueue, deleteQueue.tail, deleteQueue.globalSlice, deleteQueue.globalBufferedUpdates,
               deleteSlice, pendingUpdates
      ensures Valid() && phase.Idle?
      ensures deleteQueue.nodes == old(deleteQueue.nodes) + (if r.Some? && deleteNode != null then [deleteNode] else [])
      ensures r.Some? <==> false !in accepted
      ensures r.None? ==>
                && deleteQueue.View() == old(deleteQueue.View())
                && View() == Processed(old(View()), Leading(accepted)).(phase := Idle)
      ensures r.Some? ==>
                var q, w := old(deleteQueue.View()), Processed(old(View()), |accepted|);
                if deleteNode != null then
                  && r == Some(q.seqNo + 1)
                  && deleteQueue.View() == StepGlobal(Enqueue(q, deleteNode.item.value))
                  && View() == FinishedUpdate(q, w, deleteNode.item.value)
                else
                  && (q.seqNo >= -1 ==> r == Some(q.seqNo + 1))
                  && deleteQueue.View() == q.(seqNo := q.seqNo + 1)
                  && View() == FinishedPlain(q, w)
    {
      hide Chain, StepGlobal, Enqueue, FinishedUpdate, FinishedPlain;
      var docsInRamBefore := numDocsInRAM;
      phase := Batch(docsInRamBefore);
      var all := ProcessDocuments(accepted);
      if !all {
        phase := Idle;
        return None;
      }
      var n;
      if deleteNode != null {
        n := FinishUpdate(deleteNode, docsInRamBefore);
      } else {
        n := FinishPlain(docsInRamBefore);
      }
      return Some(n);
    }

    method ProcessDocuments(accepted: seq<bool>) returns (all: bool)
      requires numDocsInRAM == |docs|
      modifies this`numDocsInRAM, this`docs
      ensures numDocsInRAM == |docs| && (all <==> false !in accepted)
      ensures docs == old(docs) + Repeat(seqNo, Leading(accepted)) && (all <==> Leading(accepted) == |accepted|)
    {
      var i := 0;
      while i < |accepted|
        invariant 0 <= i <= |accepted| && false !in accepted[..i]
        invariant Leading(accepted) == i + Leading(accepted[i..])
        invariant numDocsInRAM == |docs| && docs == old(docs) + Repeat(seqNo, i)
      {
        if !accepted[i] {
          return false;
        }
        numDocsInRAM := numDocsInRAM + 1;
        docs := docs + [seqNo];
        i := i + 1;
      }
      return true;
    }

    /** prepareFlush: whatever stands in the slice reaches every buffered document;
        freezing the global buffer may have moved the slice to the end before. */
    method PrepareFlush(moved: bool)
      requires Valid() && phase.Idle?
      modifies this, deleteSlice, pendingUpdates
      ensures Valid() && deleteQueue.View() == old(deleteQueue.View()) && phase.Flushed?
      ensures View() == StepPrepareFlush(old(deleteQueue.View()), old(View()), moved)
    {
      hide Chain, Applied;
      if moved {
        var _ := deleteQueue.UpdateSliceNoSeqNo(deleteSlice);
        tail := |deleteQueue.log|;
      }
      ApplySlice(numDocsInRAM);
      deleteSlice.Reset();
      phase := Flushed;
    }
  }

  // The methods' effects are runs of protocol steps, and keep what those keep

  lemma {:induction false} ProcessedOk(q: Queue, w: Writer, k: nat)
    requires QueueOk(q) && WriterOk(q, w) && w.phase.Idle?
    ensures WriterOk(q, Processed(w, k))
  {
    if k == 0 {
      BeginOk(q, w);
      assert w.docs + Repeat(w.seqNo, 0) == w.docs;
    } else {
      ProcessedOk(q, w, k - 1);
      ProcessOk(q, Processed(w, k - 1));
      assert w.docs + Repeat(w.seqNo, k) == w.docs + Repeat(w.seqNo, k - 1) + [w.seqNo];
    }
  }

  /** Whatever a writer's batch does, its buffered deletes stay exact for the part of
      the queue it has applied: all of it up to its own operation. */
  lemma BatchKeepsExact(q: Queue, w: Writer, k: nat, term: Term)
    requires QueueOk(q) && WriterOk(q, w) && w.phase.Idle?
    ensures var x := Processed(w, k);
            && WriterOk(q, x.(phase := Idle))
            && WriterOk(Enqueue(q, term), FinishedUpdate(q, x, term))
            && FinishedUpdate(q, x, term).head == |q.log| + 1
            && WriterOk(q.(seqNo := q.seqNo + 1), FinishedPlain(q, x))
            && FinishedPlain(q, x).head == |q.log|
  {
    var x := Processed(w, k);
    var q1 := q.(seqNo := q.seqNo + 1);
    ProcessedOk(q, w, k);
    BeginOk(q, x);
    EnqueueOk(q, term);
    UpdateOk(q, x, term);
    ApplyOk(Enqueue(q, term), StepUpdate(q, x, term));
    NumberOk(q);
    FinishOk(q, x);
    if StepFinish(q, x).phase.Slice? {
      ApplyOk(q1, StepFinish(q, x));
      AppliedSame(q, q1, StepFinish(q, x), x.phase.before);
    }
  }
}
