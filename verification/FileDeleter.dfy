/** The index file deleter (core/index/indexfiledeleter.go) and the policy that
    keeps only the last commit. A directory is the set of its files' names and the
    order in which files were removed from it. */
module FileDeleter {

  const SEGMENTS := "segments"

  predicate IsSegments(name: string) {
    |SEGMENTS| <= |name| && name[..|SEGMENTS|] == SEGMENTS
  }

  class Directory {
    var files: set<string>
    var removed: seq<string>

    constructor (files: set<string>)
      ensures this.files == files && removed == []
    {
      this.files := files;
      removed := [];
    }

    /** Files are written outside the deleter. */
    method WriteFiles(names: set<string>)
      modifies this`files
      ensures files == old(files) + names
    {
      files := files + names;
    }

    method DeleteFile(name: string)
      modifies this
      ensures files == old(files) - {name} && removed == old(removed) + [name]
    {
      files := files - {name};
      removed := removed + [name];
    }
  }

  // Reference counts as multisets of file names

  ghost predicate Represents(counts: map<string, int>, refs: multiset<string>) {
    && (forall f :: f in counts <==> f in refs)
    && (forall f <- counts :: counts[f] == refs[f])
  }

  ghost function Take(refs: multiset<string>, files: set<string>): multiset<string> {
    refs + multiset(files)
  }

  ghost function Drop(refs: multiset<string>, files: set<string>): multiset<string> {
    refs - multiset(files)
  }

  ghost predicate Covers(refs: multiset<string>, files: set<string>) {
    multiset(files) <= refs
  }

  /** The references of commits, of the last checkpoint and from outside. */
  ghost function Held(commits: multiset<string>, last: set<string>, holds: multiset<string>): multiset<string> {
    commits + multiset(last) + holds
  }

  lemma HeldAlgebra(commits: multiset<string>, last: set<string>, holds: multiset<string>, files: set<string>)
    ensures Held(Take(commits, files), last, holds) == Take(Held(commits, last, holds), files)
    ensures Held(commits, last, Take(holds, files)) == Take(Held(commits, last, holds), files)
    ensures Covers(Take(Held(commits, last, holds), files), last)
    ensures Drop(Take(Held(commits, last, holds), files), last) == Held(commits, files, holds)
    ensures Covers(holds, files) ==>
              Covers(Held(commits, last, holds), files) &&
              Drop(Held(commits, last, holds), files) == Held(commits, last, Drop(holds, files))
  {
  }

  /** The files that lose their last reference. */
  ghost function Gone(before: multiset<string>, after: multiset<string>): set<string> {
    set f | f in before && f !in after
  }

  /** What an operation removes from a directory: exactly these files, the
      segments files before the others. */
  ghost predicate Removes(names: seq<string>, gone: set<string>) {
    && (forall f :: f in names <==> f in gone)
    && (forall i, j | 0 <= i < j < |names| :: names[i] != names[j])
    && (forall i, j | 0 <= i < j < |names| :: IsSegments(names[j]) ==> IsSegments(names[i]))
  }

  /** A commit; the policy marks it deleted. */
  class CommitPoint {
    const files: set<string>
    const generation: int
    const commitsToDelete: CommitList
    var deleted: bool

    constructor (commitsToDelete: CommitList, files: set<string>, generation: int)
      ensures this.commitsToDelete == commitsToDelete && this.files == files && this.generation == generation
      ensures !deleted
    {
      this.commitsToDelete := commitsToDelete;
      this.files := files;
      this.generation := generation;
      deleted := false;
    }

    method Delete()
      modifies this, commitsToDelete
      ensures deleted
      ensures commitsToDelete.items ==
              if old(deleted) then old(commitsToDelete.items) else old(commitsToDelete.items) + [this]
    {
      if !deleted {
        deleted := true;
        commitsToDelete.items := commitsToDelete.items + [this];
      }
    }
  }

  class CommitList {
    var items: seq<CommitPoint>

    constructor ()
      ensures items == []
    {
      items := [];
    }
  }

  /** All references of a list of commits. */
  ghost function RefsOf(commits: seq<CommitPoint>): multiset<string> {
    if commits == [] then multiset{}
    else Take(RefsOf(commits[..|commits| - 1]), commits[|commits| - 1].files)
  }

  lemma RefsNext(commits: seq<CommitPoint>, c: CommitPoint)
    ensures RefsOf(commits + [c]) == Take(RefsOf(commits), c.files)
  {
    assert (commits + [c])[..|commits|] == commits;
  }

  /** The commits that are kept, in their order, and the ones that are not. */
  ghost function Marked(commits: seq<CommitPoint>, deleted: bool): seq<CommitPoint>
    reads commits
  {
    if commits == [] then []
    else
      Marked(commits[..|commits| - 1], deleted) +
      (if commits[|commits| - 1].deleted == deleted then [commits[|commits| - 1]] else [])
  }

  lemma MarkedNext(commits: seq<CommitPoint>, i: nat, deleted: bool)
    requires i < |commits|
    ensures Marked(commits[..i + 1], deleted) ==
            Marked(commits[..i], deleted) + (if commits[i].deleted == deleted then [commits[i]] else [])
  {
    assert commits[..i + 1][..i] == commits[..i];
  }

  lemma MarkedNone(commits: seq<CommitPoint>)
    ensures Marked(commits[..0], false) == [] && Marked(commits[..|commits|], false) == Marked(commits, false)
  {
    assert commits[..|commits|] == commits;
  }

  lemma {:induction false} MarkedSplits(commits: seq<CommitPoint>)
    ensures RefsOf(commits) == RefsOf(Marked(commits, false)) + RefsOf(Marked(commits, true))
  {
    if commits != [] {
      var init, last := commits[..|commits| - 1], commits[|commits| - 1];
      MarkedSplits(init);
      RefsNext(Marked(init, last.deleted), last);
      assert Marked(init, !last.deleted) + [] == Marked(init, !last.deleted);
    }
  }

  lemma {:induction false} MarkedIn(commits: seq<CommitPoint>, deleted: bool, c: CommitPoint)
    ensures c in Marked(commits, deleted) <==> c in commits && c.deleted == deleted
  {
    if commits != [] {
      var n := |commits| - 1;
      MarkedIn(commits[..n], deleted, c);
      assert commits == commits[..n] + [commits[n]];
    }
  }

  ghost predicate NoRepeats<T>(s: seq<T>) {
    forall i, j | 0 <= i < j < |s| :: s[i] != s[j]
  }

  lemma {:induction false} MarkedNoRepeats(commits: seq<CommitPoint>, deleted: bool)
    requires NoRepeats(commits)
    ensures NoRepeats(Marked(commits, deleted))
  {
    if commits != [] {
      var n := |commits| - 1;
      MarkedNoRepeats(commits[..n], deleted);
      MarkedIn(commits[..n], deleted, commits[n]);
    }
  }

  lemma FirstIn<T>(s: seq<T>)
    requires s != []
    ensures s[0] in s
  {
  }

  /** The same commits in another order hold the same references. */
  lemma {:induction false} RefsPermuted(a: seq<CommitPoint>, b: seq<CommitPoint>)
    requires NoRepeats(a) && NoRepeats(b) && (forall c <- a :: c in b) && forall c <- b :: c in a
    ensures RefsOf(a) == RefsOf(b)
    decreases |a|
  {
    hide RefsOf;
    if a != [] {
      var n := |a| - 1;
      var c := a[n];
      assert c in b;
      var i :| 0 <= i < |b| && b[i] == c;
      RefsRemove(b, i);
      var rest := b[..i] + b[i + 1..];
      assert b == b[..i] + [c] + b[i + 1..];
      assert a == a[..n] + [c];
      RefsNext(a[..n], c);
      forall x: CommitPoint | x in a[..n] ensures x in rest {
        assert x in a && x in b;
      }
      forall x: CommitPoint | x in rest ensures x in a[..n] {
        assert x in b && x in a;
      }
      RefsPermuted(a[..n], rest);
    } else if b != [] {
      FirstIn(b);
      assert false;
    }
  }

  lemma {:induction false} RefsRemove(b: seq<CommitPoint>, i: nat)
    requires i < |b|
    ensures RefsOf(b) == Take(RefsOf(b[..i] + b[i + 1..]), b[i].files)
  {
    hide RefsOf;
    var n := |b| - 1;
    assert b == b[..n] + [b[n]];
    RefsNext(b[..n], b[n]);
    if i == n {
      assert b[..i] + b[i + 1..] == b[..n];
    } else {
      var start, end := b[..i], b[i + 1..n];
      RefsRemove(b[..n], i);
      assert b[..n][..i] + b[..n][i + 1..] == start + end;
      RefsNext(start + end, b[n]);
      assert start + end + [b[n]] == start + b[i + 1..];
      TakeTwice(RefsOf(start + end), b[i].files, b[n].files);
    }
  }

  lemma TakeTwice(refs: multiset<string>, a: set<string>, b: set<string>)
    ensures Take(Take(refs, a), b) == Take(Take(refs, b), a)
  {
  }

  /** The commits to delete are the commits marked deleted, each once. */
  ghost predicate CommitsOk(commits: seq<CommitPoint>, toDelete: CommitList)
    reads commits, toDelete
  {
    && NoRepeats(commits) && NoRepeats(toDelete.items)
    && (forall c <- commits :: c.commitsToDelete == toDelete)
    && (forall c <- toDelete.items :: c in commits && c.deleted)
    && (forall c <- commits | c.deleted :: c in toDelete.items)
  }

  lemma CommitsOkParts(commits: seq<CommitPoint>, toDelete: CommitList)
    requires CommitsOk(commits, toDelete)
    ensures NoRepeats(commits) && forall c <- commits :: c.commitsToDelete == toDelete
  {
  }

  lemma MarkedOk(commits: seq<CommitPoint>, toDelete: CommitList)
    requires NoRepeats(commits) && (forall c <- commits :: c.commitsToDelete == toDelete) && toDelete.items == []
    ensures CommitsOk(Marked(commits, false), toDelete)
  {
    MarkedNoRepeats(commits, false);
    forall c: CommitPoint | c in Marked(commits, false) ensures c in commits && !c.deleted {
      MarkedIn(commits, false, c);
    }
  }

  /** What a policy does when a commit has been made: keep the last one only, or
      any other choice of commits to delete. */
  datatype Policy = KeepOnlyLastCommit | Choose(indices: seq<nat>)

  class IndexFileDeleter {
    var refCounts: map<string, int>
    var commits: seq<CommitPoint>
    var lastFiles: set<string>
    const commitsToDelete: CommitList
    const directory: Directory

    ghost var holds: multiset<string>   // references taken from outside

    ghost function Refs(): multiset<string>
      reads this
    {
      Held(RefsOf(commits), lastFiles, holds)
    }

    ghost predicate Commits()
      reads this, commitsToDelete, commits
    {
      CommitsOk(commits, commitsToDelete)
    }

    /** Every count is the number of commits with the file, plus one for the last
        checkpoint, plus the outside references; and no file with a reference is
        missing. */
    ghost predicate Valid()
      reads this, commitsToDelete, commits, directory
    {
      && Represents(refCounts, Refs()) && Commits()
      && forall f <- Refs() :: f in directory.files
    }

    constructor (directory: Directory)
      ensures Valid() && this.directory == directory && Refs() == multiset{} && fresh(commitsToDelete)
      ensures commits == [] && lastFiles == {} && holds == multiset{}
    {
      this.directory := directory;
      refCounts, commits, lastFiles, holds := map[], [], {}, multiset{};
      commitsToDelete := new CommitList();
    }

    method IncRefFileName(fileName: string, ghost refs: multiset<string>)
      requires Represents(refCounts, refs)
      modifies this`refCounts
      ensures Represents(refCounts, refs + multiset{fileName})
    {
      var count := if fileName in refCounts then refCounts[fileName] else 0;
      refCounts := refCounts[fileName := count + 1];
    }

    method AddRefs(files: set<string>, ghost refs: multiset<string>)
      requires Represents(refCounts, refs)
      modifies this`refCounts
      ensures Represents(refCounts, Take(refs, files))
    {
      var rest := files;
      while rest != {}
        invariant rest <= files && Represents(refCounts, refs + multiset(files - rest))
        decreases |rest|
      {
        var f :| f in rest;
        IncRefFileName(f, refs + multiset(files - rest));
        assert multiset(files - rest) + multiset{f} == multiset(files - (rest - {f}));
        assert refs + multiset(files - rest) + multiset{f} == refs + multiset(files - (rest - {f}));
        rest := rest - {f};
      }
      assert files - rest == files;
    }

    /** decRef: true when the file has lost its last reference. */
    method DecRefFileName(fileName: string, ghost refs: multiset<string>) returns (last: bool)
      requires Represents(refCounts, refs) && fileName in refs
      modifies this`refCounts
      ensures Represents(refCounts, refs - multiset{fileName})
      ensures last <==> fileName !in refs - multiset{fileName}
    {
      var count := refCounts[fileName] - 1;
      if count == 0 {
        refCounts := refCounts - {fileName};
        return true;
      }
      refCounts := refCounts[fileName := count];
      return false;
    }

    /** DecRef: takes one reference from each file and removes those that had no
        other. */
    method DropRefs(files: set<string>, ghost refs: multiset<string>)
      requires Represents(refCounts, refs) && Covers(refs, files)
      modifies this`refCounts, directory
      ensures Represents(refCounts, Drop(refs, files))
      ensures directory.files == old(directory.files) - Gone(refs, Drop(refs, files))
      ensures exists names :: directory.removed == old(directory.removed) + names
                              && Removes(names, Gone(refs, Drop(refs, files)))
    {
      hide Represents, Removes, Gone, Drop, Covers;
      var toDelete := {};
      var rest := files;
      NothingGone(refs, files);
      while rest != {}
        invariant rest <= files && Represents(refCounts, Drop(refs, files - rest))
        invariant toDelete == Gone(refs, Drop(refs, files - rest))
        invariant directory.files == old(directory.files) && directory.removed == old(directory.removed)
        decreases |rest|
      {
        var f :| f in rest;
        StepGone(refs, files, rest, f);
        var last := DecRefFileName(f, Drop(refs, files - rest));
        if last {
          toDelete := toDelete + {f};
        }
        rest := rest - {f};
      }
      assert files - rest == files;
      DeleteFiles(toDelete);
    }

    /** deleteFiles: the segments files first. */
    method DeleteFiles(names: set<string>)
      modifies directory
      ensures directory.files == old(directory.files) - names
      ensures exists removed :: directory.removed == old(directory.removed) + removed && Removes(removed, names)
    {
      var segments := set name | name in names && IsSegments(name);
      var first := RemoveAll(segments);
      var second := RemoveAll(names - segments);
      InTwoParts(first, segments, second, names);
      assert directory.removed == old(directory.removed) + (first + second);
    }

    method RemoveAll(names: set<string>) returns (removed: seq<string>)
      modifies directory
      ensures directory.files == old(directory.files) - names
      ensures directory.removed == old(directory.removed) + removed
      ensures NoRepeats(removed) && forall f :: f in removed <==> f in names
    {
      removed := [];
      var rest := names;
      while rest != {}
        invariant rest <= names && directory.files == old(directory.files) - (names - rest)
        invariant directory.removed == old(directory.removed) + removed
        invariant NoRepeats(removed) && forall f :: f in removed <==> f in names - rest
        decreases |rest|
      {
        var f :| f in rest;
        directory.DeleteFile(f);
        removed := removed + [f];
        rest := rest - {f};
      }
    }

    /** CommitPoint.Delete, as a policy calls it. */
    method MarkDeleted(i: nat)
      requires Commits() && i < |commits|
      modifies commitsToDelete, commits[i]
      ensures Commits() && commits[i].deleted
      ensures forall j | 0 <= j < |commits| && j != i :: commits[j].deleted == old(commits[j].deleted)
    {
      commits[i].Delete();
    }

    /** OnCommit of the default policy: every commit but the last. */
    method KeepOnlyLast()
      requires Commits()
      modifies commitsToDelete, commits
      ensures Commits()
      ensures forall j | 0 <= j < |commits| :: commits[j].deleted == (j < |commits| - 1 || old(commits[j].deleted))
    {
      var size := |commits|;
      var i := 0;
      while i < size - 1
        invariant 0 <= i <= size && Commits()
        invariant forall j | 0 <= j < size :: commits[j].deleted == (j < i || old(commits[j].deleted))
        invariant size > 0 ==> i <= size - 1
      {
        MarkDeleted(i);
        i := i + 1;
      }
    }

    /** OnCommit of any other policy. */
    method DeleteChosen(indices: seq<nat>)
      requires Commits()
      modifies commitsToDelete, commits
      ensures Commits()
      ensures forall j | 0 <= j < |commits| :: commits[j].deleted == (j in indices || old(commits[j].deleted))
    {
      var i := 0;
      while i < |indices|
        invariant 0 <= i <= |indices| && Commits()
        invariant forall j | 0 <= j < |commits| :: commits[j].deleted == (j in indices[..i] || old(commits[j].deleted))
      {
        if indices[i] < |commits| {
          MarkDeleted(indices[i]);
        }
        assert indices[..i + 1] == indices[..i] + [indices[i]];
        i := i + 1;
      }
      assert indices[..i] == indices;
    }

    method OnCommit(policy: Policy)
      requires Commits()
      modifies commitsToDelete, commits
      ensures Commits()
      ensures forall j | 0 <= j < |commits| ::
                commits[j].deleted == (ToDelete(policy, |commits|, j) || old(commits[j].deleted))
    {
      match policy
      case KeepOnlyLastCommit => KeepOnlyLast();
      case Choose(indices) => DeleteChosen(indices);
    }

    /** deleteCommits: drops the references of the deleted commits, and the commits. */
    method DeleteCommits()
      requires Represents(refCounts, Refs()) && Commits()
      modifies this`refCounts, this`commits, commitsToDelete, directory
      ensures Commits() && commits == old(Marked(commits, false)) && commitsToDelete.items == []
      ensures Represents(refCounts, Refs()) && Refs() <= old(Refs())
      ensures directory.files == old(directory.files) - Gone(old(Refs()), Refs())
    {
      hide Represents, Gone, Removes, Marked, RefsOf, CommitsOk, Held;
      ghost var before := commits;
      CommitsOkParts(before, commitsToDelete);
      DropDeleted();
      commitsToDelete.items := [];
      Compact();
      MarkedOk(before, commitsToDelete);
    }

    /** The references there are without those of the commits marked deleted. */
    ghost function KeptRefs(): multiset<string>
      reads this, commits
    {
      Held(RefsOf(Marked(commits, false)), lastFiles, holds)
    }

    method DropDeleted()
      requires Represents(refCounts, Refs()) && Commits()
      modifies this`refCounts, directory
      ensures Represents(refCounts, KeptRefs()) && KeptRefs() <= Refs()
      ensures directory.files == old(directory.files) - Gone(Refs(), KeptRefs())
    {
      hide Represents, Removes, Gone, Remaining, RefsOf, Marked, CommitsOk, Held, Covers, Drop;
      ghost var refs, items, files := Refs(), commitsToDelete.items, directory.files;
      DroppedRefs();
      RemainingAll(refs, items);
      var k := 0;
      while k < |commitsToDelete.items|
        invariant 0 <= k <= |items| && commitsToDelete.items == items
        invariant Represents(refCounts, Remaining(refs, items, k))
        invariant directory.files == files - Gone(refs, Remaining(refs, items, k))
      {
        RemainingNext(refs, items, k);
        DropRefs(commitsToDelete.items[k].files, Remaining(refs, items, k));
        MinusTwice(files, Gone(refs, Remaining(refs, items, k)),
                   Gone(Remaining(refs, items, k), Remaining(refs, items, k + 1)));
        k := k + 1;
      }
    }

    /** The commits to delete hold the references of the ones marked deleted. */
    lemma DroppedRefs()
      requires Commits()
      ensures RefsOf(commitsToDelete.items) <= Refs()
      ensures Refs() - RefsOf(commitsToDelete.items) == KeptRefs() <= Refs()
    {
      MarkedSplits(commits);
      MarkedNoRepeats(commits, true);
      forall c: CommitPoint | c in commits || c in commitsToDelete.items
        ensures c in Marked(commits, true) <==> c in commitsToDelete.items
      {
        MarkedIn(commits, true, c);
      }
      forall c: CommitPoint | c in Marked(commits, true) ensures c in commits {
        MarkedIn(commits, true, c);
      }
      hide RefsOf, Marked, Held;
      RefsPermuted(commitsToDelete.items, Marked(commits, true));
      HeldWithout(RefsOf(Marked(commits, false)), RefsOf(Marked(commits, true)), lastFiles, holds);
    }

    /** The compaction loop: the commits that stay move to the front, in order. */
    method Compact()
      modifies this`commits
      ensures commits == old(Marked(commits, false))
    {
      ghost var before := commits;
      var size := |commits|;
      var writeTo := 0;
      var readFrom := 0;
      MarkedNone(before);
      hide Marked;
      while readFrom < |commits|
        invariant 0 <= writeTo <= readFrom <= |commits| == size == |before|
        invariant commits[..writeTo] == Marked(before[..readFrom], false)
        invariant commits[readFrom..] == before[readFrom..]
      {
        var commit := commits[readFrom];
        MarkedNext(before, readFrom, false);
        if !commit.deleted {
          if writeTo != readFrom {
            commits := commits[writeTo := commit];
          }
          writeTo := writeTo + 1;
        }
        readFrom := readFrom + 1;
      }
      assert before[..readFrom] == before;
      while size > writeTo
        invariant writeTo <= size == |commits| && commits[..writeTo] == Marked(before, false)
      {
        commits := commits[..size - 1];
        size := size - 1;
      }
      assert commits[..writeTo] == commits;
    }

    /** Checkpoint of a commit: the policy may let commits go, the new one included.
        What was only in those goes too; the last non-commit checkpoint stays. */
    method CheckpointCommit(files: set<string>, generation: int, policy: Policy) returns (commitPoint: CommitPoint)
      requires Valid() && files <= directory.files
      modifies this`refCounts, this`commits, commitsToDelete, commits, directory
      ensures Valid() && fresh(commitPoint) && commitPoint.files == files && commitPoint.generation == generation
      ensures commits == Marked(old(commits) + [commitPoint], false) && commitsToDelete.items == []
      ensures policy == KeepOnlyLastCommit ==> commits == [commitPoint]
      ensures forall j | 0 <= j < |old(commits)| ::
                old(commits)[j].deleted == (ToDelete(policy, |old(commits)| + 1, j) || old(commits[j].deleted))
      ensures commitPoint.deleted == ToDelete(policy, |old(commits)| + 1, |old(commits)|)
      ensures Refs() <= Take(old(Refs()), files) && holds == old(holds)
      ensures directory.files == old(directory.files) - Gone(Take(old(Refs()), files), Refs())
    {
      hide Represents, Gone, Marked, RefsOf, Take, Held, CommitsOk;
      ghost var refs := Refs();
      commitPoint := AppendCommit(files, generation);
      ghost var all := commits;
      OnCommit(policy);
      assert forall j | 0 <= j < |all| - 1 ::
          all[j] == old(commits)[j] && all[j].deleted == (ToDelete(policy, |all|, j) || old(commits[j].deleted));
      if policy.KeepOnlyLastCommit? {
        OneCommitLives(old(commits), commitPoint);
      }
      DeleteCommits();
      StillPresent(refs, files, Refs(), old(directory.files), directory.files);
    }

    method AppendCommit(files: set<string>, generation: int) returns (commitPoint: CommitPoint)
      requires Represents(refCounts, Refs()) && Commits()
      modifies this`refCounts, this`commits
      ensures Represents(refCounts, Refs()) && Commits() && Refs() == Take(old(Refs()), files)
      ensures fresh(commitPoint) && commitPoint.files == files && commitPoint.generation == generation
      ensures !commitPoint.deleted
      ensures commits == old(commits) + [commitPoint]
    {
      hide Represents, Marked, RefsOf, Take, Held;
      AddRefs(files, Refs());
      commitPoint := new CommitPoint(commitsToDelete, files, generation);
      RefsNext(commits, commitPoint);
      HeldAlgebra(RefsOf(commits), lastFiles, holds, files);
      commits := commits + [commitPoint];
    }

    /** Checkpoint without a commit: the references of the last one are exchanged. */
    method Checkpoint(files: set<string>)
      requires Valid() && files <= directory.files
      modifies this`refCounts, this`lastFiles, directory
      ensures Valid() && lastFiles == files && Refs() <= Take(old(Refs()), files)
      ensures directory.files == old(directory.files) - Gone(Take(old(Refs()), files), Refs())
      ensures exists names :: directory.removed == old(directory.removed) + names
                              && Removes(names, Gone(Take(old(Refs()), files), Refs()))
    {
      hide Represents, Gone, Removes, CommitsOk, RefsOf, Take, Drop, Held, Covers;
      ghost var refs := Refs();
      AddRefs(files, refs);
      HeldAlgebra(RefsOf(commits), lastFiles, holds, files);
      DropShrinks(Take(refs, files), lastFiles);
      DropRefs(lastFiles, Take(refs, files));
      lastFiles := files;
      StillPresent(refs, files, Refs(), old(directory.files), directory.files);
    }

    /** IncRefFiles, for readers and writers outside. */
    method IncRefFiles(files: set<string>)
      requires Valid() && files <= directory.files
      modifies this`refCounts, this`holds
      ensures Valid() && holds == Take(old(holds), files) && Refs() == Take(old(Refs()), files)
    {
      hide Represents, Gone, CommitsOk, RefsOf, Take, Drop, Held, Covers;
      ghost var refs := Refs();
      AddRefs(files, refs);
      HeldAlgebra(RefsOf(commits), lastFiles, holds, files);
      TakePresent(refs, files, directory.files);
      holds := Take(holds, files);
    }

    /** DecRef, for references taken before. */
    method DecRef(files: set<string>)
      requires Valid() && Covers(holds, files)
      modifies this`refCounts, this`holds, directory
      ensures Valid() && holds == Drop(old(holds), files) && Refs() <= old(Refs())
      ensures directory.files == old(directory.files) - Gone(old(Refs()), Refs())
      ensures exists names ::
                directory.removed == old(directory.removed) + names && Removes(names, Gone(old(Refs()), Refs()))
    {
      hide Represents, Gone, Removes, CommitsOk, RefsOf, Take, Drop, Held, Covers;
      ghost var refs := Refs();
      HeldAlgebra(RefsOf(commits), lastFiles, holds, files);
      DropRefs(files, refs);
      DropShrinks(refs, files);
      holds := Drop(holds, files);
      DropPresent(refs, files, old(directory.files), directory.files);
    }
  }

  ghost function CommitsWith(commits: seq<CommitPoint>, f: string): nat {
    if commits == [] then 0
    else CommitsWith(commits[..|commits| - 1], f) + (if f in commits[|commits| - 1].files then 1 else 0)
  }

  lemma {:induction false} RefsCountCommits(commits: seq<CommitPoint>, f: string)
    ensures RefsOf(commits)[f] == CommitsWith(commits, f)
  {
    if commits != [] {
      RefsCountCommits(commits[..|commits| - 1], f);
    }
  }

  /** A file's count is the number of commits that contain it, plus one if the last
      checkpoint did, plus the outside references; without any it has no count. */
  lemma CountsAreRight(deleter: IndexFileDeleter, f: string)
    requires deleter.Valid()
    ensures var count := CommitsWith(deleter.commits, f) + (if f in deleter.lastFiles then 1 else 0) + deleter.holds[f];
            && (f in deleter.refCounts <==> count > 0)
            && (f in deleter.refCounts ==> deleter.refCounts[f] == count && f in deleter.directory.files)
  {
    RefsCountCommits(deleter.commits, f);
    assert deleter.Refs()[f] == RefsOf(deleter.commits)[f] + multiset(deleter.lastFiles)[f] + deleter.holds[f];
  }

  ghost predicate ToDelete(policy: Policy, size: nat, j: nat) {
    match policy
    case KeepOnlyLastCommit => j + 1 < size
    case Choose(indices) => j in indices
  }

  lemma {:induction false} NoneKept(commits: seq<CommitPoint>)
    requires forall c <- commits :: c.deleted
    ensures Marked(commits, false) == []
  {
    if commits != [] {
      NoneKept(commits[..|commits| - 1]);
    }
  }

  /** With the default policy one commit lives: the last. */
  lemma OneCommitLives(commits: seq<CommitPoint>, last: CommitPoint)
    requires forall c <- commits :: c.deleted
    requires !last.deleted
    ensures Marked(commits + [last], false) == [last]
  {
    NoneKept(commits);
    assert (commits + [last])[..|commits|] == commits;
  }

  lemma HeldWithout(kept: multiset<string>, dropped: multiset<string>, last: set<string>, holds: multiset<string>)
    ensures Held(kept + dropped, last, holds) - dropped == Held(kept, last, holds) <= Held(kept + dropped, last, holds)
    ensures dropped <= Held(kept + dropped, last, holds)
  {
  }

  lemma MinusTwice(s: set<string>, a: set<string>, b: set<string>)
    ensures s - a - b == s - (a + b)
  {
  }

  lemma {:induction false} RefsPrefix(commits: seq<CommitPoint>, k: nat)
    requires k <= |commits|
    ensures RefsOf(commits[..k]) <= RefsOf(commits)
  {
    if k < |commits| {
      RefsPrefix(commits[..|commits| - 1], k);
      assert commits[..|commits| - 1][..k] == commits[..k];
    } else {
      assert commits[..k] == commits;
    }
  }

  /** The references that remain once the first k of these commits are gone. */
  ghost function Remaining(refs: multiset<string>, items: seq<CommitPoint>, k: nat): multiset<string>
    requires k <= |items|
  {
    refs - RefsOf(items[..k])
  }

  lemma RemainingAll(refs: multiset<string>, items: seq<CommitPoint>)
    ensures Remaining(refs, items, 0) == refs && Gone(refs, refs) == {}
    ensures Remaining(refs, items, |items|) == refs - RefsOf(items)
  {
    assert items[..0] == [] && items[..|items|] == items;
  }

  lemma RemainingNext(refs: multiset<string>, items: seq<CommitPoint>, k: nat)
    requires RefsOf(items) <= refs && k < |items|
    ensures var now, next := Remaining(refs, items, k), Remaining(refs, items, k + 1);
            && Covers(now, items[k].files) && next == Drop(now, items[k].files)
            && Gone(refs, next) == Gone(refs, now) + Gone(now, next)
  {
    hide Gone, RefsOf;
    assert items[..k + 1] == items[..k] + [items[k]];
    RefsNext(items[..k], items[k]);
    RefsPrefix(items, k + 1);
    DropOne(refs, RefsOf(items[..k]), items[k].files, RefsOf(items));
    GoneTwice(refs, Remaining(refs, items, k), Remaining(refs, items, k + 1));
  }

  lemma DropOne(refs: multiset<string>, done: multiset<string>, files: set<string>, all: multiset<string>)
    requires done + multiset(files) <= all <= refs
    ensures multiset(files) <= refs - done
    ensures refs - done - multiset(files) == refs - (done + multiset(files))
  {
  }

  lemma GoneTwice(a: multiset<string>, b: multiset<string>, c: multiset<string>)
    requires c <= b <= a
    ensures Gone(a, c) == Gone(a, b) + Gone(b, c)
  {
  }

  lemma DropShrinks(refs: multiset<string>, files: set<string>)
    ensures Drop(refs, files) <= refs
  {
  }

  lemma TakePresent(refs: multiset<string>, files: set<string>, are: set<string>)
    requires (forall f <- refs :: f in are) && files <= are
    ensures forall f <- Take(refs, files) :: f in are
  {
  }

  lemma DropPresent(refs: multiset<string>, files: set<string>, were: set<string>, are: set<string>)
    requires (forall f <- refs :: f in were) && are == were - Gone(refs, Drop(refs, files))
    ensures forall f <- Drop(refs, files) :: f in are
  {
  }

  lemma StillPresent(refs: multiset<string>, files: set<string>, after: multiset<string>, were: set<string>,
                     are: set<string>)
    requires (forall f <- refs :: f in were) && files <= were && after <= Take(refs, files)
    requires are == were - Gone(Take(refs, files), after)
    ensures forall f <- after :: f in are
  {
  }

  lemma InTwoParts(first: seq<string>, segments: set<string>, second: seq<string>, names: set<string>)
    requires segments == set name | name in names && IsSegments(name)
    requires NoRepeats(first) && forall f :: f in first <==> f in segments
    requires NoRepeats(second) && forall f :: f in second <==> f in names - segments
    ensures Removes(first + second, names)
  {
    var all := first + second;
    forall i, j | 0 <= i < j < |all| ensures all[i] != all[j] && (IsSegments(all[j]) ==> IsSegments(all[i])) {
      assert all[i] == if i < |first| then first[i] else second[i - |first|];
      assert all[j] == if j < |first| then first[j] else second[j - |first|];
      assert j >= |first| ==> all[j] in second;
      assert i < |first| ==> all[i] in first;
    }
  }

  lemma NothingGone(refs: multiset<string>, files: set<string>)
    ensures Drop(refs, files - files) == refs && Gone(refs, refs) == {}
  {
    assert files - files == {};
  }

  /** Taking one more reference off, and whether it was the file's last. */
  lemma StepGone(refs: multiset<string>, files: set<string>, rest: set<string>, f: string)
    requires f in rest && rest <= files && Covers(refs, files)
    ensures var now, next := Drop(refs, files - rest), Drop(refs, files - (rest - {f}));
            && f in now && next == now - multiset{f}
            && Gone(refs, next) == Gone(refs, now) + (if f !in next then {f} else {})
  {
    hide Gone;
    var dropped := files - rest;
    assert files - (rest - {f}) == dropped + {f} && f !in dropped;
    assert refs[f] >= multiset(files)[f] == 1;
    DropOneMore(refs, dropped, f);
    GoneOne(refs, Drop(refs, dropped), f);
  }

  lemma DropOneMore(refs: multiset<string>, dropped: set<string>, f: string)
    requires f !in dropped && f in refs
    ensures f in Drop(refs, dropped) && Drop(refs, dropped) <= refs
    ensures Drop(refs, dropped + {f}) == Drop(refs, dropped) - multiset{f}
  {
    assert multiset(dropped + {f}) == multiset(dropped) + multiset{f};
  }

  lemma GoneOne(refs: multiset<string>, now: multiset<string>, f: string)
    requires f in now && now <= refs
    ensures var next := now - multiset{f};
            Gone(refs, next) == Gone(refs, now) + if f !in next then {f} else {}
  {
  }
}
