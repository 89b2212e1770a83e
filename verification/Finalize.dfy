/** Finalize commits what was approved, and only when the worktree shows nothing else. */
module Finalize {
  import opened Wrappers
  import opened Bytes
  import opened Paths
  import opened Approvals
  import opened Worktree

  /** HEAD and the index are still as the run began. */
  predicate AtStart(git: Git, base: Commit) {
    git.head == base && git.index == base.tree
  }

  /** The entries have the same bytes, whatever their modes; something that is not a file must be the same. */
  predicate SameBytes(a: Option<Entry>, b: Option<Entry>) {
    || a == b
    || (a.Some? && b.Some? && a.value.Regular? && b.value.Regular?
        && a.value.file.content == b.value.file.content)
  }

  /** Git sees the path: it is approved, tracked or not ignored. */
  predicate Seen(git: Git, files: State, p: Path) {
    p in files || p in git.index || p !in git.ignored
  }

  ghost predicate WorktreeIsCommit(git: Git, base: Commit, worktree: Tree, files: State) {
    forall p :: Seen(git, files, p) ==>
      if p in files then SameBytes(At(worktree, p), At(Committed(base.tree, files), p))
      else At(worktree, p) == At(Committed(base.tree, files), p)
  }

  /** Finalize finds no violation exactly when the worktree, as far as git sees it, holds the bytes of the tree it is
      about to commit. */
  lemma VerifiedIsCommitted(git: Git, base: Commit, worktree: Tree, files: State)
    requires AtStart(git, base)
    ensures ViolationsOf(git, base, worktree, files) == {} <==> WorktreeIsCommit(git, base, worktree, files)
  {
    var found := ViolationsOf(git, base, worktree, files);
    if found == {} {
      forall p | Seen(git, files, p) ensures
        if p in files then SameBytes(At(worktree, p), At(Committed(base.tree, files), p))
        else At(worktree, p) == At(Committed(base.tree, files), p)
      {
        assert PathEscape(p) !in found && ContentMismatch(p) !in found && UnapprovedChange(p) !in found;
      }
    }
    if WorktreeIsCommit(git, base, worktree, files) {
      forall p | p in files ensures Holds(worktree, p, files[p]) {
        assert Seen(git, files, p);
      }
      forall p | p in Status(git, worktree) ensures p in files {
        if p !in files {
          assert Seen(git, files, p);
        }
      }
      NoneFound(git, base, worktree, files);
    }
  }

  lemma NoneFound(git: Git, base: Commit, worktree: Tree, files: State)
    requires git.head.id == base.id
    requires forall p :: p in files ==> Holds(worktree, p, files[p])
    requires forall p :: p in Status(git, worktree) ==> p in files
    ensures ViolationsOf(git, base, worktree, files) == {}
  {}

  /** The modes of approved files are not compared: a file approved as executable passes when it is not. */
  lemma ModesAreNotVerified()
    ensures var f, p := File([1], Executable), [97];
            var base := Commit("base", map[]);
            var worktree := map[p := Regular(f.(mode := Plain))];
            && ViolationsOf(Git(base, map[], {}), base, worktree, map[p := Kept(f)]) == {}
            && At(worktree, p) != At(Committed(base.tree, map[p := Kept(f)]), p)
  {}

  // ----- a review after a command -----

  /** The review is accepted: when the edits that list the worktree's changes can be approved and are recorded,
      finalize finds no violation. Each listed path must be a file in the worktree, or absent. */
  lemma AcceptedPasses(git: Git, base: Commit, files: State, worktree: Tree, paths: seq<Path>)
    requires AtStart(git, base) && Lists(paths, git, worktree, files)
    requires forall i :: 0 <= i < |paths| ==>
        Canonical(paths[i]) && (paths[i] in worktree ==> worktree[paths[i]].Regular?)
    requires ChangesAt(base.tree, files, worktree, paths).Ok?
    requires Derived(base.tree, files, ChangesAt(base.tree, files, worktree, paths).value).Ok?
    ensures var next := Derived(base.tree, files, ChangesAt(base.tree, files, worktree, paths).value).value;
            ViolationsOf(git, base, worktree, files + next) == {}
  {
    ChangesAreWhole(base.tree, files, worktree, paths);
    var next := Derived(base.tree, files, ChangesAt(base.tree, files, worktree, paths).value).value;
    hide Derived, ChangesAt, Canonical, Status, Current, FileAt, Holds;
    forall p | p in files + next ensures Holds(worktree, p, (files + next)[p]) {
      assert p in paths;
      SettledPath(git, base, files + next, worktree, p);
    }
    forall p | p in Status(git, worktree) ensures p in files + next {
      assert p in paths;
      SettledPath(git, base, files + next, worktree, p);
    }
    NoneFound(git, base, worktree, files + next);
  }

  /** A path whose approved state is what the worktree holds is no violation. */
  lemma SettledPath(git: Git, base: Commit, files: State, worktree: Tree, p: Path)
    requires AtStart(git, base) && (p in worktree ==> worktree[p].Regular?)
    requires Current(base.tree, files, p) == Ok(FileAt(worktree, p))
    ensures p in files ==> Holds(worktree, p, files[p])
    ensures p in Status(git, worktree) ==> p in files
  {}

  function PathsOf(edits: seq<Edit>): set<Path> {
    set i | 0 <= i < |edits| :: edits[i].path
  }

  lemma PathsSnoc(edits: seq<Edit>, e: Edit)
    ensures PathsOf(edits + [e]) == PathsOf(edits) + {e.path}
  {
    var more := edits + [e];
    assert more[|edits|] == e;
    assert forall i :: 0 <= i < |edits| ==> more[i] == edits[i];
  }

  lemma ChangeNamesPath(base: Tree, files: State, worktree: Tree, p: Path)
    ensures var e := ChangeAt(base, files, worktree, p); e.Ok? && e.value.Some? ==> e.value.value.path == p
  {
    hide Current;
  }

  predicate IsListed(base: Tree, files: State, worktree: Tree, edits: seq<Edit>, p: Path) {
    ChangeAt(base, files, worktree, p).Ok? && (ChangeAt(base, files, worktree, p).value.Some? ==> p in PathsOf(edits))
  }

  lemma {:induction false} ChangesListed(base: Tree, files: State, worktree: Tree, paths: seq<Path>)
    requires ChangesAt(base, files, worktree, paths).Ok?
    ensures var edits := ChangesAt(base, files, worktree, paths).value;
            && (forall p :: p in PathsOf(edits) ==> p in paths)
            && (forall p :: p in paths ==> IsListed(base, files, worktree, edits, p))
  {
    if paths != [] {
      var front, p := paths[..|paths| - 1], paths[|paths| - 1];
      assert paths == front + [p];
      LastChange(base, files, worktree, front, p);
      ChangeNamesPath(base, files, worktree, p);
      var edits, e := ChangesAt(base, files, worktree, front).value, ChangeAt(base, files, worktree, p).value;
      hide ChangesAt, ChangeAt, PathsOf;
      ChangesListed(base, files, worktree, front);
      if e.Some? {
        PathsSnoc(edits, e.value);
      }
    }
  }

  /** Every violation's path is among the edits that are listed. */
  lemma ViolationListed(git: Git, base: Commit, files: State, worktree: Tree, paths: seq<Path>, v: Violation)
    requires AtStart(git, base) && Lists(paths, git, worktree, files)
    requires ChangesAt(base.tree, files, worktree, paths).Ok?
    requires v in ViolationsOf(git, base, worktree, files)
    ensures !v.BranchMoved? && v.path in PathsOf(ChangesAt(base.tree, files, worktree, paths).value)
  {
    ChangesListed(base.tree, files, worktree, paths);
    hide ChangesAt, PathsOf;
    assert v.path in paths;
    assert IsListed(base.tree, files, worktree, ChangesAt(base.tree, files, worktree, paths).value, v.path);
  }

  /** What is wrong with paths outside ps stays wrong, and nothing else is. */
  lemma OnlyOutside(git: Git, base: Commit, was: Tree, before: State, now: Tree, after: State, ps: set<Path>)
    requires forall p :: EscapesAt(now, after, p) <==> EscapesAt(was, before, p) && p !in ps
    requires forall p :: MismatchAt(now, after, p) <==> MismatchAt(was, before, p) && p !in ps
    requires forall p :: UnapprovedAt(git, now, after, p) <==> UnapprovedAt(git, was, before, p) && p !in ps
    requires forall p :: EscapesAt(was, before, p) || MismatchAt(was, before, p) ==> p in before
    requires forall p :: EscapesAt(now, after, p) || MismatchAt(now, after, p) ==> p in after
    requires forall p :: UnapprovedAt(git, was, before, p) ==> p in Status(git, was)
    requires forall p :: UnapprovedAt(git, now, after, p) ==> p in Status(git, now)
    ensures ViolationsOf(git, base, now, after)
            == set v | v in ViolationsOf(git, base, was, before) && (v.BranchMoved? || v.path !in ps)
  {
    hide EscapesAt, MismatchAt, UnapprovedAt, Status;
  }

  lemma RestoredPath(git: Git, base: Commit, files: State, worktree: Tree, ps: set<Path>, p: Path)
    requires AtStart(git, base) && forall p :: p in ps ==> Current(base.tree, files, p).Ok?
    ensures var after := Restored(base.tree, files, worktree, ps);
            && (EscapesAt(after, files, p) <==> EscapesAt(worktree, files, p) && p !in ps)
            && (MismatchAt(after, files, p) <==> MismatchAt(worktree, files, p) && p !in ps)
            && (UnapprovedAt(git, after, files, p) <==> UnapprovedAt(git, worktree, files, p) && p !in ps)
  {
    var after := Restored(base.tree, files, worktree, ps);
    if p in ps {
      if p !in files {
        assert At(after, p) == At(base.tree, p);
      }
    } else {
      assert At(after, p) == At(worktree, p);
    }
  }

  /** Putting paths back removes exactly their violations. */
  lemma RestoreRemoves(git: Git, base: Commit, files: State, worktree: Tree, ps: set<Path>)
    requires AtStart(git, base) && forall p :: p in ps ==> Current(base.tree, files, p).Ok?
    ensures ViolationsOf(git, base, Restored(base.tree, files, worktree, ps), files)
            == set v | v in ViolationsOf(git, base, worktree, files) && (v.BranchMoved? || v.path !in ps)
  {
    hide Restored, Current, Escapes, Holds, Status, ViolationsOf;
    var after := Restored(base.tree, files, worktree, ps);
    forall p ensures
      && (EscapesAt(after, files, p) <==> EscapesAt(worktree, files, p) && p !in ps)
      && (MismatchAt(after, files, p) <==> MismatchAt(worktree, files, p) && p !in ps)
      && (UnapprovedAt(git, after, files, p) <==> UnapprovedAt(git, worktree, files, p) && p !in ps)
    {
      RestoredPath(git, base, files, worktree, ps, p);
    }
    OnlyOutside(git, base, worktree, files, after, files, ps);
  }

  /** The review is rejected: when the paths of its edits are put back, finalize finds no violation. */
  lemma RejectedPasses(git: Git, base: Commit, files: State, worktree: Tree, paths: seq<Path>)
    requires AtStart(git, base) && Lists(paths, git, worktree, files)
    requires ChangesAt(base.tree, files, worktree, paths).Ok?
    ensures var ps := PathsOf(ChangesAt(base.tree, files, worktree, paths).value);
            && (forall p :: p in ps ==> Current(base.tree, files, p).Ok?)
            && ViolationsOf(git, base, Restored(base.tree, files, worktree, ps), files) == {}
  {
    var ps := PathsOf(ChangesAt(base.tree, files, worktree, paths).value);
    ChangesListed(base.tree, files, worktree, paths);
    hide ChangesAt, PathsOf, Lists;
    forall p | p in ps ensures Current(base.tree, files, p).Ok? {
      assert IsListed(base.tree, files, worktree, ChangesAt(base.tree, files, worktree, paths).value, p);
    }
    hide ChangeAt, Current;
    RestoreRemoves(git, base, files, worktree, ps);
    hide ViolationsOf, Restored;
    forall v | v in ViolationsOf(git, base, worktree, files) ensures !v.BranchMoved? && v.path in ps {
      ViolationListed(git, base, files, worktree, paths, v);
    }
  }

  lemma WrittenPath(git: Git, files: State, worktree: Tree, next: State, p: Path)
    ensures var after, all := Written(worktree, next), files + next;
            && (EscapesAt(after, all, p) <==> EscapesAt(worktree, files, p) && p !in next)
            && (MismatchAt(after, all, p) <==> MismatchAt(worktree, files, p) && p !in next)
            && (UnapprovedAt(git, after, all, p) <==> UnapprovedAt(git, worktree, files, p) && p !in next)
  {
    if p !in next {
      assert At(Written(worktree, next), p) == At(worktree, p);
    }
  }

  /** Applying an approved proposal to the worktree, and recording it, removes exactly the violations of its paths
      and adds none. */
  lemma AppliedRemoves(git: Git, base: Commit, files: State, worktree: Tree, next: State)
    ensures ViolationsOf(git, base, Written(worktree, next), files + next)
            == set v | v in ViolationsOf(git, base, worktree, files) && (v.BranchMoved? || v.path !in next)
  {
    hide Written, Escapes, Holds, Status, ViolationsOf;
    var after, all := Written(worktree, next), files + next;
    forall p ensures
      && (EscapesAt(after, all, p) <==> EscapesAt(worktree, files, p) && p !in next)
      && (MismatchAt(after, all, p) <==> MismatchAt(worktree, files, p) && p !in next)
      && (UnapprovedAt(git, after, all, p) <==> UnapprovedAt(git, worktree, files, p) && p !in next)
    {
      WrittenPath(git, files, worktree, next, p);
    }
    OnlyOutside(git, base, worktree, files, after, all, next.Keys);
  }
}
