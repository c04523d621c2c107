/** Runs of the index file deleter (core/index/indexfiledeleter.go): any commits,
    checkpoints and outside holds in any order. */
module FileRuns {
  import opened FileDeleter

  // What a run means, without reference counts

  /** The files that are there, and the sets of files that are referred to: one for each live
      commit, one for the last checkpoint, and those held outside. */
  datatype State = State(files: set<string>, commits: seq<set<string>>, last: set<string>, holds: multiset<string>)

  datatype Op =
    | Write(names: set<string>)
    | Commit(names: set<string>, generation: int, policy: Policy)
    | NonCommit(names: set<string>)
    | Hold(names: set<string>)
    | Release(names: set<string>)

  ghost function CommitRefs(commits: seq<set<string>>): multiset<string> {
    if commits == [] then multiset{}
    else Take(CommitRefs(commits[..|commits| - 1]), commits[|commits| - 1])
  }

  ghost function RefsIn(s: State): multiset<string> {
    Held(CommitRefs(s.commits), s.last, s.holds)
  }

  /** The commits that a policy leaves. */
  ghost function Kept(commits: seq<set<string>>, policy: Policy, size: nat): seq<set<string>> {
    if commits == [] then []
    else
      var n := |commits| - 1;
      Kept(commits[..n], policy, size) + if ToDelete(policy, size, n) then [] else [commits[n]]
  }

  /** References to all of the files are held. */
  predicate HeldAll(held: multiset<string>, files: set<string>) {
    forall f <- files :: f in held
  }

  /** An operation whose files are not there, or not held, does nothing. */
  ghost predicate Effective(s: State, op: Op) {
    match op
    case Write(_) => true
    case Release(names) => HeldAll(s.holds, names)
    case _ => op.names <= s.files
  }

  /** The files to which it takes references. */
  ghost function Taken(s: State, op: Op): set<string> {
    if !Effective(s, op) || op.Write? || op.Release? then {} else op.names
  }

  /** What is referred to afterwards. */
  ghost function Referred(s: State, op: Op): State {
    match op
    case Write(names) => s.(files := s.files + names)
    case Commit(names, _, policy) => s.(commits := Kept(s.commits + [names], policy, |s.commits| + 1))
    case NonCommit(names) => s.(last := names)
    case Hold(names) => s.(holds := Take(s.holds, names))
    case Release(names) => s.(holds := Drop(s.holds, names))
  }

  /** And what loses its last reference goes. */
  ghost function Next(s: State, op: Op): State {
    if !Effective(s, op) then s
    else
      var t := Referred(s, op);
      t.(files := t.files - Gone(Take(RefsIn(s), Taken(s, op)), RefsIn(t)))
  }

  ghost function After(ops: seq<Op>): State {
    if ops == [] then State({}, [], {}, multiset{})
    else Next(After(ops[..|ops| - 1]), ops[|ops| - 1])
  }

  /** How often a file is referred to: by live commits, by the last checkpoint, from outside. */
  ghost function Count(s: State, f: string): nat {
    WithFile(s.commits, f) + (if f in s.last then 1 else 0) + s.holds[f]
  }

  ghost function WithFile(commits: seq<set<string>>, f: string): nat {
    if commits == [] then 0
    else WithFile(commits[..|commits| - 1], f) + if f in commits[|commits| - 1] then 1 else 0
  }

  /** A reference to the file exists before step k of a run, or is taken in it. */
  ghost predicate Used(ops: seq<Op>, k: nat, f: string)
    requires k < |ops|
  {
    var s := After(ops[..k]);
    Count(s, f) > 0 || f in Taken(s, ops[k])
  }

  /** Step k drops the last reference to the file. */
  ghost predicate Freed(ops: seq<Op>, k: nat, f: string)
    requires k < |ops|
  {
    Used(ops, k, f) && Count(After(ops[..k + 1]), f) == 0
  }

  ghost predicate Written(ops: seq<Op>, k: nat, f: string)
    requires k < |ops|
  {
    ops[k].Write? && f in ops[k].names
  }

  lemma {:induction false} CountIsRefs(commits: seq<set<string>>, f: string)
    ensures CommitRefs(commits)[f] == WithFile(commits, f)
  {
    if commits != [] {
      CountIsRefs(commits[..|commits| - 1], f);
    }
  }

  lemma CountedIffIn(s: State, f: string)
    ensures Count(s, f) == RefsIn(s)[f] && (Count(s, f) > 0 <==> f in RefsIn(s))
  {
    CountIsRefs(s.commits, f);
  }

  /** A policy adds no reference. */
  lemma {:induction false} KeptRefs(commits: seq<set<string>>, policy: Policy, size: nat)
    ensures CommitRefs(Kept(commits, policy, size)) <= CommitRefs(commits)
  {
    if commits != [] {
      var n := |commits| - 1;
      var kept := Kept(commits[..n], policy, size);
      KeptRefs(commits[..n], policy, size);
      CommitRefsNext(kept, commits[n]);
      assert kept + [] == kept;
    }
  }

  lemma CommitRefsNext(commits: seq<set<string>>, names: set<string>)
    ensures CommitRefs(commits + [names]) == Take(CommitRefs(commits), names)
  {
    assert (commits + [names])[..|commits|] == commits;
  }

  /** Afterwards nothing is referred to that was not, or was not taken. */
  lemma RefsAfter(s: State, op: Op)
    requires Effective(s, op)
    ensures RefsIn(Referred(s, op)) <= Take(RefsIn(s), Taken(s, op))
  {
    if op.Commit? {
      hide CommitRefs, Kept;
      KeptRefs(s.commits + [op.names], op.policy, |s.commits| + 1);
      CommitRefsNext(s.commits, op.names);
    } else {
      hide CommitRefs;
    }
  }

  /** One step and one file. */
  lemma StepOf(s: State, op: Op, f: string)
    ensures var t := Next(s, op);
            var used := Count(s, f) > 0 || f in Taken(s, op);
            && (Count(t, f) > 0 ==> used)
            && (f in t.files <==>
                (f in s.files || (op.Write? && f in op.names)) && !(used && Count(t, f) == 0))
            && (op.Write? ==> Count(t, f) == Count(s, f))
            && (f in Taken(s, op) ==> f in s.files && !op.Write?)
  {
    hide CommitRefs, WithFile, Kept, Held;
    CountedIffIn(s, f);
    CountedIffIn(Next(s, op), f);
    if Effective(s, op) {
      RefsAfter(s, op);
      assert f in Take(RefsIn(s), Taken(s, op)) <==> f in RefsIn(s) || f in Taken(s, op);
    }
  }

  lemma RunOf(ops: seq<Op>, k: nat)
    requires k < |ops|
    ensures After(ops[..k + 1]) == Next(After(ops[..k]), ops[k])
  {
    assert ops[..k + 1][..k] == ops[..k];
  }

  /** A step removes a file exactly when it drops its last reference. */
  lemma LeavesIff(ops: seq<Op>, k: nat, f: string)
    requires k < |ops| && f in After(ops[..k]).files
    ensures f !in After(ops[..k + 1]).files <==> Freed(ops, k, f)
  {
    hide After, Next, Count, Taken;
    RunOf(ops, k);
    StepOf(After(ops[..k]), ops[k], f);
  }

  /** Written in the first n steps, and none of them drops its last reference later. */
  ghost predicate Stays(ops: seq<Op>, n: nat, f: string)
    requires n <= |ops|
  {
    exists j | 0 <= j < n :: Written(ops, j, f) && forall k | j < k < n :: !Freed(ops, k, f)
  }

  /** Written in the first n steps, and not referred to since. */
  ghost predicate Unused(ops: seq<Op>, n: nat, f: string)
    requires n <= |ops|
  {
    exists j | 0 <= j < n :: Written(ops, j, f) && forall k | j <= k < n :: !Used(ops, k, f)
  }

  lemma StaysNext(ops: seq<Op>, n: nat, f: string)
    requires n < |ops| && (Written(ops, n, f) ==> !Freed(ops, n, f))
    ensures Stays(ops, n + 1, f) <==> (Stays(ops, n, f) || Written(ops, n, f)) && !Freed(ops, n, f)
  {
    hide Written, Freed;
    if Stays(ops, n + 1, f) {
      var j :| 0 <= j < n + 1 && Written(ops, j, f) && forall k | j < k < n + 1 :: !Freed(ops, k, f);
      assert j < n ==> Stays(ops, n, f);
    }
    if Stays(ops, n, f) && !Freed(ops, n, f) {
      var j :| 0 <= j < n && Written(ops, j, f) && forall k | j < k < n :: !Freed(ops, k, f);
      assert Stays(ops, n + 1, f);
    }
  }

  lemma UnusedNext(ops: seq<Op>, n: nat, f: string)
    requires n < |ops|
    ensures Unused(ops, n + 1, f) <==> (Unused(ops, n, f) || Written(ops, n, f)) && !Used(ops, n, f)
  {
    hide Written, Used;
    if Unused(ops, n + 1, f) {
      var j :| 0 <= j < n + 1 && Written(ops, j, f) && forall k | j <= k < n + 1 :: !Used(ops, k, f);
      assert j < n ==> Unused(ops, n, f);
    }
    if Unused(ops, n, f) && !Used(ops, n, f) {
      var j :| 0 <= j < n && Written(ops, j, f) && forall k | j <= k < n :: !Used(ops, k, f);
      assert Unused(ops, n + 1, f);
    }
  }

  /** After any run a file is there exactly when it was written and no later step dropped
      its last reference. */
  lemma {:induction false} ThereIff(ops: seq<Op>, n: nat, f: string)
    requires n <= |ops|
    ensures f in After(ops[..n]).files <==> Stays(ops, n, f)
  {
    if n > 0 {
      hide After, Next, Count, Taken, Stays;
      ThereIff(ops, n - 1, f);
      RunOf(ops, n - 1);
      StepOf(After(ops[..n - 1]), ops[n - 1], f);
      StaysNext(ops, n - 1, f);
    }
  }

  /** It is there exactly when it is referred to, or was written and not referred to since. */
  lemma {:induction false} ThereOrUnused(ops: seq<Op>, n: nat, f: string)
    requires n <= |ops|
    ensures f in After(ops[..n]).files <==> Count(After(ops[..n]), f) > 0 || Unused(ops, n, f)
  {
    if n > 0 {
      hide After, Next, Count, Taken, Unused;
      ThereOrUnused(ops, n - 1, f);
      RunOf(ops, n - 1);
      StepOf(After(ops[..n - 1]), ops[n - 1], f);
      UnusedNext(ops, n - 1, f);
    } else {
      assert ops[..0] == [];
    }
  }

  ghost predicate LastOnly(ops: seq<Op>) {
    forall op <- ops :: op.Commit? ==> op.policy == KeepOnlyLastCommit
  }

  /** The last commit of a run whose files were there. */
  ghost function LastCommit(ops: seq<Op>): seq<set<string>> {
    if ops == [] then []
    else
      var init, op := ops[..|ops| - 1], ops[|ops| - 1];
      if op.Commit? && op.names <= After(init).files then [op.names] else LastCommit(init)
  }

  /** With the default policy that one lives, and no other. */
  lemma {:induction false} OneLives(ops: seq<Op>)
    requires LastOnly(ops)
    ensures After(ops).commits == LastCommit(ops)
  {
    if ops != [] {
      var init, op := ops[..|ops| - 1], ops[|ops| - 1];
      assert op in ops && forall o <- init :: o in ops;
      OneLives(init);
      if op.Commit? {
        OnlyLastKept(After(init).commits + [op.names]);
      }
    }
  }

  lemma OnlyLastKept(commits: seq<set<string>>)
    requires commits != []
    ensures Kept(commits, KeepOnlyLastCommit, |commits|) == [commits[|commits| - 1]]
  {
    NoneKeptBefore(commits[..|commits| - 1], |commits|);
  }

  lemma {:induction false} NoneKeptBefore(commits: seq<set<string>>, size: nat)
    requires |commits| < size
    ensures Kept(commits, KeepOnlyLastCommit, size) == []
  {
    if commits != [] {
      NoneKeptBefore(commits[..|commits| - 1], size);
    }
  }

  lemma KeptNext(commits: seq<set<string>>, names: set<string>, policy: Policy, size: nat)
    ensures Kept(commits + [names], policy, size) ==
            Kept(commits, policy, size) + if ToDelete(policy, size, |commits|) then [] else [names]
  {
    assert (commits + [names])[..|commits|] == commits;
  }

  // The objects

  ghost function FilesOf(commits: seq<CommitPoint>): seq<set<string>> {
    if commits == [] then [] else FilesOf(commits[..|commits| - 1]) + [commits[|commits| - 1].files]
  }

  lemma FilesNext(commits: seq<CommitPoint>, c: CommitPoint)
    ensures FilesOf(commits + [c]) == FilesOf(commits) + [c.files]
  {
    assert (commits + [c])[..|commits|] == commits;
  }

  lemma {:induction false} SameRefs(commits: seq<CommitPoint>)
    ensures |FilesOf(commits)| == |commits| && CommitRefs(FilesOf(commits)) == RefsOf(commits)
  {
    if commits != [] {
      var n := |commits| - 1;
      SameRefs(commits[..n]);
      CommitRefsNext(FilesOf(commits[..n]), commits[n].files);
    }
  }

  /** The commits not marked are those that the policy leaves. */
  lemma {:induction false} SameKept(commits: seq<CommitPoint>, policy: Policy, size: nat)
    requires forall j | 0 <= j < |commits| :: commits[j].deleted == ToDelete(policy, size, j)
    ensures FilesOf(Marked(commits, false)) == Kept(FilesOf(commits), policy, size)
  {
    if commits != [] {
      var n := |commits| - 1;
      var init, marked := commits[..n], Marked(commits[..n], false);
      assert commits == init + [commits[n]];
      SameKept(init, policy, size);
      FilesNext(init, commits[n]);
      KeptNext(FilesOf(init), commits[n].files, policy, size);
      SameRefs(init);
      hide FilesOf, Kept, CommitRefs;
      if commits[n].deleted {
        assert Marked(commits, false) == marked;
      } else {
        assert Marked(commits, false) == marked + [commits[n]];
        FilesNext(marked, commits[n]);
      }
    }
  }

  ghost function Seen(deleter: IndexFileDeleter): State
    reads deleter, deleter.directory
  {
    State(deleter.directory.files, FilesOf(deleter.commits), deleter.lastFiles, deleter.holds)
  }

  lemma SeenRefs(deleter: IndexFileDeleter)
    ensures RefsIn(Seen(deleter)) == deleter.Refs()
  {
    SameRefs(deleter.commits);
  }

  /** No commit that is listed is marked. */
  ghost predicate Live(commits: seq<CommitPoint>)
    reads commits
  {
    forall c <- commits :: !c.deleted
  }

  lemma MarkedLive(commits: seq<CommitPoint>)
    ensures Live(Marked(commits, false)) && forall c <- Marked(commits, false) :: c in commits
  {
    forall c <- Marked(commits, false) ensures !c.deleted && c in commits {
      MarkedIn(commits, false, c);
    }
  }

  lemma Stepped(s: State, op: Op, t: State)
    requires Effective(s, op) && t == Referred(s, op).(files := t.files)
    requires t.files == Referred(s, op).files - Gone(Take(RefsIn(s), Taken(s, op)), RefsIn(t))
    ensures t == Next(s, op)
  {
    hide Gone, Take, Kept;
    assert RefsIn(t) == RefsIn(Referred(s, op));
  }

  /** One operation is one step. */
  method RunOp(deleter: IndexFileDeleter, op: Op, held: multiset<string>) returns (held': multiset<string>)
    requires deleter.Valid() && Live(deleter.commits) && held == deleter.holds
    modifies deleter, deleter.commitsToDelete, deleter.commits, deleter.directory
    ensures deleter.Valid() && Live(deleter.commits) && held' == deleter.holds
    ensures Seen(deleter) == Next(old(Seen(deleter)), op)
    ensures forall c <- deleter.commits :: c in old(deleter.commits) || fresh(c)
  {
    held' := held;
    hide Effective, Live, Next, Seen, IndexFileDeleter.Valid;
    var ok := IsEffective(deleter, held, op);
    if !ok {
      StaysPut(Seen(deleter), op);
      return;
    }
    match op {
      case Write(names) =>
        RunWrite(deleter, names);
      case Commit(names, generation, policy) =>
        RunCommit(deleter, names, generation, policy);
      case NonCommit(names) =>
        RunNonCommit(deleter, names);
      case Hold(names) =>
        held' := RunHold(deleter, names, held);
      case Release(names) =>
        held' := RunRelease(deleter, names, held);
    }
  }

  method RunWrite(deleter: IndexFileDeleter, names: set<string>)
    requires deleter.Valid()
    modifies deleter.directory
    ensures deleter.Valid() && Seen(deleter) == Next(old(Seen(deleter)), Write(names))
  {
    hide Represents, CommitsOk, IndexFileDeleter.Refs, Gone, Take, RefsIn;
    ghost var s := Seen(deleter);
    SeenRefs(deleter);
    deleter.directory.WriteFiles(names);
    SeenRefs(deleter);
    NothingTaken(RefsIn(s));
    Stepped(s, Write(names), Seen(deleter));
  }

  method RunNonCommit(deleter: IndexFileDeleter, names: set<string>)
    requires deleter.Valid() && Effective(Seen(deleter), NonCommit(names))
    modifies deleter`refCounts, deleter`lastFiles, deleter.directory
    ensures deleter.Valid() && Seen(deleter) == Next(old(Seen(deleter)), NonCommit(names))
  {
    hide IndexFileDeleter.Refs, Gone, Take, RefsIn, Next;
    ghost var s := Seen(deleter);
    SeenRefs(deleter);
    deleter.Checkpoint(names);
    SeenRefs(deleter);
    Stepped(s, NonCommit(names), Seen(deleter));
  }

  method RunHold(deleter: IndexFileDeleter, names: set<string>, held: multiset<string>)
    returns (held': multiset<string>)
    requires deleter.Valid() && held == deleter.holds && Effective(Seen(deleter), Hold(names))
    modifies deleter`refCounts, deleter`holds
    ensures deleter.Valid() && held' == deleter.holds
    ensures Seen(deleter) == Next(old(Seen(deleter)), Hold(names))
  {
    hide IndexFileDeleter.Refs, Gone, Take, RefsIn, Next;
    ghost var s := Seen(deleter);
    SeenRefs(deleter);
    deleter.IncRefFiles(names);
    SeenRefs(deleter);
    NothingTaken(Take(RefsIn(s), names));
    Stepped(s, Hold(names), Seen(deleter));
    HeldMore(held, names);
    return held + multiset(names);
  }

  method RunRelease(deleter: IndexFileDeleter, names: set<string>, held: multiset<string>)
    returns (held': multiset<string>)
    requires deleter.Valid() && held == deleter.holds && Effective(Seen(deleter), Release(names))
    modifies deleter`refCounts, deleter`holds, deleter.directory
    ensures deleter.Valid() && held' == deleter.holds
    ensures Seen(deleter) == Next(old(Seen(deleter)), Release(names))
  {
    hide IndexFileDeleter.Refs, Gone, Take, Drop, RefsIn, Next;
    ghost var s := Seen(deleter);
    SeenRefs(deleter);
    HeldIsCovered(held, names);
    deleter.DecRef(names);
    SeenRefs(deleter);
    NothingTaken(RefsIn(s));
    Stepped(s, Release(names), Seen(deleter));
    HeldMore(held, names);
    return held - multiset(names);
  }

  /** Whether the operation's files are there, or held. */
  method IsEffective(deleter: IndexFileDeleter, held: multiset<string>, op: Op) returns (ok: bool)
    requires held == deleter.holds
    ensures ok <==> Effective(Seen(deleter), op)
  {
    ok := match op
          case Write(_) => true
          case Release(names) => HeldAll(held, names)
          case _ => op.names <= deleter.directory.files;
  }

  lemma StaysPut(s: State, op: Op)
    requires !Effective(s, op)
    ensures Next(s, op) == s
  {
  }

  lemma HeldMore(held: multiset<string>, names: set<string>)
    ensures Take(held, names) == held + multiset(names) && Drop(held, names) == held - multiset(names)
  {
  }

  lemma NothingTaken(refs: multiset<string>)
    ensures Take(refs, {}) == refs && Gone(refs, refs) == {}
  {
  }

  method RunCommit(deleter: IndexFileDeleter, names: set<string>, generation: int, policy: Policy)
    requires deleter.Valid() && Live(deleter.commits) && Effective(Seen(deleter), Commit(names, generation, policy))
    modifies deleter`refCounts, deleter`commits, deleter.commitsToDelete, deleter.commits, deleter.directory
    ensures deleter.Valid() && Live(deleter.commits)
    ensures Seen(deleter) == Next(old(Seen(deleter)), Commit(names, generation, policy))
    ensures forall c <- deleter.commits :: c in old(deleter.commits) || fresh(c)
  {
    hide Gone, Marked, Take, Kept, FilesOf, Next, RefsIn, IndexFileDeleter.Refs, IndexFileDeleter.Valid, CommitsOk;
    ghost var s, was := Seen(deleter), deleter.commits;
    SeenRefs(deleter);
    SameRefs(was);
    var commitPoint := deleter.CheckpointCommit(names, generation, policy);
    SeenRefs(deleter);
    LeftByPolicy(was, commitPoint, policy);
    Stepped(s, Commit(names, generation, policy), Seen(deleter));
  }

  /** The commits left by a policy, when none was marked before. */
  lemma LeftByPolicy(was: seq<CommitPoint>, commitPoint: CommitPoint, policy: Policy)
    requires forall j | 0 <= j < |was| :: was[j].deleted == ToDelete(policy, |was| + 1, j)
    requires commitPoint.deleted == ToDelete(policy, |was| + 1, |was|)
    ensures var all := was + [commitPoint];
            && Live(Marked(all, false)) && (forall c <- Marked(all, false) :: c in was || c == commitPoint)
            && FilesOf(Marked(all, false)) == Kept(FilesOf(was) + [commitPoint.files], policy, |all|)
  {
    hide Marked, Kept, FilesOf;
    var all := was + [commitPoint];
    MarkedLive(all);
    FilesNext(was, commitPoint);
    SameKept(all, policy, |all|);
  }

  lemma HeldIsCovered(held: multiset<string>, files: set<string>)
    requires HeldAll(held, files)
    ensures Covers(held, files)
  {
    forall f ensures multiset(files)[f] <= held[f] {
      if f in files {
        assert f in held;
      }
    }
  }

  /** Over any run on an empty directory the deleter is where the run leads without reference
      counts: the count of a file is the number of live commits with it, plus one for the last
      checkpoint, plus the outside holds; a file is there exactly when it was written and no
      later step dropped its last reference, which is when it is referred to or was not since
      it was written; and with the default policy the last commit lives alone. */
  method RunAll(ops: seq<Op>) returns (deleter: IndexFileDeleter)
    ensures deleter.Valid() && Seen(deleter) == After(ops)
    ensures forall f :: CountRight(deleter.refCounts, After(ops), f)
    ensures forall f :: f in deleter.directory.files <==> Stays(ops, |ops|, f)
    ensures forall f :: f in deleter.directory.files <==> f in deleter.refCounts || Unused(ops, |ops|, f)
    ensures LastOnly(ops) ==> FilesOf(deleter.commits) == LastCommit(ops)
  {
    hide After, Next, Stays, Unused, Count, FilesOf;
    var directory := new Directory({});
    deleter := new IndexFileDeleter(directory);
    var held := multiset{};
    StartsEmpty(ops, deleter);
    for i := 0 to |ops|
      invariant deleter.Valid() && Live(deleter.commits) && held == deleter.holds && Seen(deleter) == After(ops[..i])
      invariant fresh(deleter) && fresh(deleter.directory) && fresh(deleter.commitsToDelete)
      invariant forall k | 0 <= k < |deleter.commits| :: fresh(deleter.commits[k])
    {
      hide Represents, Gone, Marked, RefsOf, Take, Held, CommitsOk, Removes, After, Next, FilesOf;
      RunOf(ops, i);
      held := RunOp(deleter, ops[i], held);
      forall k | 0 <= k < |deleter.commits| ensures fresh(deleter.commits[k]) {
        assert deleter.commits[k] in deleter.commits;
      }
    }
    assert ops[..|ops|] == ops;
    forall f ensures CountRight(deleter.refCounts, After(ops), f)
                     && (f in deleter.directory.files <==> Stays(ops, |ops|, f))
                     && (f in deleter.directory.files <==> f in deleter.refCounts || Unused(ops, |ops|, f))
    {
      SeenCounts(deleter, ops, f);
    }
    if LastOnly(ops) {
      OneLives(ops);
    }
  }

  lemma StartsEmpty(ops: seq<Op>, deleter: IndexFileDeleter)
    requires deleter.directory.files == {} && deleter.commits == [] && deleter.lastFiles == {}
             && deleter.holds == multiset{}
    ensures Seen(deleter) == After(ops[..0])
  {
  }

  ghost predicate CountRight(refCounts: map<string, int>, s: State, f: string) {
    (f in refCounts <==> Count(s, f) > 0) && (f in refCounts ==> refCounts[f] == Count(s, f))
  }

  lemma SeenCounts(deleter: IndexFileDeleter, ops: seq<Op>, f: string)
    requires deleter.Valid() && Seen(deleter) == After(ops)
    ensures CountRight(deleter.refCounts, After(ops), f) && (f in deleter.directory.files <==> Stays(ops, |ops|, f))
    ensures f in deleter.directory.files <==> f in deleter.refCounts || Unused(ops, |ops|, f)
  {
    hide After, Count, RefsIn, CommitsOk;
    SeenRefs(deleter);
    CountedIffIn(After(ops), f);
    ThereIff(ops, |ops|, f);
    ThereOrUnused(ops, |ops|, f);
    assert ops[..|ops|] == ops;
  }
}
