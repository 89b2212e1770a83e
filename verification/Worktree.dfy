/** The worktree against the approved state: what a review after a command lists, what finalize verifies, and what
    puts files back. */
module Worktree {
  import opened Wrappers
  import opened Bytes
  import opened Paths
  import opened Approvals
  import Utf8

  datatype Commit = Commit(id: string, tree: Tree)

  /** What git says besides the worktree: HEAD, the index, and the paths it ignores while they are not tracked. */
  datatype Git = Git(head: Commit, index: Tree, ignored: set<Path>)

  datatype Violation = BranchMoved | ContentMismatch(path: Path) | UnapprovedChange(path: Path) | PathEscape(path: Path)

  datatype Fault = Refused(why: Refusal) | TooBig

  // ----- the worktree's state -----

  function At(t: Tree, p: Path): Option<Entry> {
    if p in t then Some(t[p]) else None
  }

  /** The paths of git's status that are not unmodified, in the index or in the worktree. */
  function Status(git: Git, worktree: Tree): set<Path> {
    set p | p in git.head.tree.Keys + git.index.Keys + worktree.Keys && IsModified(git, worktree, p)
  }

  predicate IsModified(git: Git, worktree: Tree, p: Path) {
    || At(git.head.tree, p) != At(git.index, p)
    || (At(git.index, p) != At(worktree, p) && (p in git.index || p !in git.ignored))
  }

  /** The worktree holds what was approved for the path: its bytes, or nothing. */
  predicate Holds(worktree: Tree, p: Path, a: Approved) {
    match a
    case Gone => p !in worktree
    case Kept(f) => p in worktree && worktree[p].Regular? && worktree[p].file.content == f.content
  }

  /** Something that is not a file has taken the path: cleaning it again is refused. */
  predicate Escapes(worktree: Tree, p: Path) {
    p in worktree && worktree[p].Irregular?
  }

  predicate EscapesAt(worktree: Tree, files: State, p: Path) {
    p in files && Escapes(worktree, p)
  }

  predicate MismatchAt(worktree: Tree, files: State, p: Path) {
    p in files && !Escapes(worktree, p) && !Holds(worktree, p, files[p])
  }

  predicate UnapprovedAt(git: Git, worktree: Tree, files: State, p: Path) {
    p in Status(git, worktree) && p !in files
  }

  /** Every reason finalize refuses to commit. */
  function ViolationsOf(git: Git, base: Commit, worktree: Tree, files: State): set<Violation> {
    (if git.head.id != base.id then {BranchMoved} else {})
    + (set p | p in files && EscapesAt(worktree, files, p) :: PathEscape(p))
    + (set p | p in files && MismatchAt(worktree, files, p) :: ContentMismatch(p))
    + (set p | p in Status(git, worktree) && UnapprovedAt(git, worktree, files, p) :: UnapprovedChange(p))
  }

  function ModeText(m: Mode): string {
    if m == Executable then "100755" else "100644"
  }

  /** A path's change that was not approved, as a whole-file edit. */
  function ChangeAt(base: Tree, files: State, worktree: Tree, p: Path): Result<Option<Edit>, Fault> {
    match Current(base, files, p)
    case Err(why) => Err(Refused(why))
    case Ok(want) =>
      if p !in worktree then Ok(if want.Some? then Some(Edit(p, DELETE_FILE, [], NoContent, "")) else None)
      else if worktree[p].Irregular? then Ok(Some(Edit(p, NEW_FILE, [], NoContent, ""))) // never read
      else
        var got := worktree[p].file;
        if |got.content| > MAX_BINARY then Err(TooBig)
        else if want == Some(got) then Ok(None)
        else
          var mode := if got.mode != (if want.Some? then want.value.mode else Plain) then ModeText(got.mode) else "";
          Ok(Some(if Utf8.Valid(got.content) then Edit(p, NEW_FILE, got.content, NoContent, mode)
                  else Edit(p, NEW_FILE, [], Encoded(got.content, false), mode)))
  }

  function ChangesAt(base: Tree, files: State, worktree: Tree, paths: seq<Path>): Result<seq<Edit>, Fault> {
    if paths == [] then Ok([])
    else
      match ChangesAt(base, files, worktree, paths[..|paths| - 1])
      case Err(f) => Err(f)
      case Ok(edits) =>
        match ChangeAt(base, files, worktree, paths[|paths| - 1])
        case Err(f) => Err(f)
        case Ok(None) => Ok(edits)
        case Ok(Some(e)) => Ok(edits + [e])
  }

  /** The paths put back to their approved state. */
  function Restored(base: Tree, files: State, worktree: Tree, ps: set<Path>): Tree
    requires forall p :: p in ps ==> Current(base, files, p).Ok?
  {
    map p | p in worktree.Keys + ps && (p in ps ==> Current(base, files, p).value.Some?) ::
      if p in ps then Regular(Current(base, files, p).value.value) else worktree[p]
  }

  /** The worktree with a derived state written to it. */
  function Written(worktree: Tree, next: State): Tree {
    map p | p in worktree.Keys + next.Keys && (p in next ==> next[p].Kept?) ::
      if p in next then Regular(next[p].file) else worktree[p]
  }

  /** The tree of the commit that is made: the base's with the approved state applied. */
  function Committed(base: Tree, files: State): Tree {
    Written(base, files)
  }

  /** The paths that a review looks at, in some order. */
  ghost predicate Lists(paths: seq<Path>, git: Git, worktree: Tree, files: State) {
    && (forall i, j :: 0 <= i < j < |paths| ==> paths[i] != paths[j])
    && (forall p :: p in paths <==> p in Status(git, worktree) + files.Keys)
  }

  class Checkout {
    const git: Git
    const base: Commit
    const approvals: Record
    var worktree: Tree

    constructor (git: Git, base: Commit, approvals: Record, worktree: Tree)
      ensures this.git == git && this.base == base && this.approvals == approvals && this.worktree == worktree
    {
      this.git, this.base, this.approvals, this.worktree := git, base, approvals, worktree;
    }

    /** The edits that would make the approved state that of the worktree, at the given paths. */
    method WorktreeChanges(paths: seq<Path>) returns (r: Result<seq<Edit>, Fault>)
      requires Lists(paths, git, worktree, approvals.files)
      ensures r == ChangesAt(approvals.base, approvals.files, worktree, paths)
    {
      hide ChangeAt;
      var edits: seq<Edit> := [];
      for i := 0 to |paths|
        invariant ChangesAt(approvals.base, approvals.files, worktree, paths[..i]) == Ok(edits)
      {
        assert paths[..i + 1][..i] == paths[..i];
        var e := ChangeAt(approvals.base, approvals.files, worktree, paths[i]);
        if e.Err? {
          ChangesFault(approvals.base, approvals.files, worktree, paths, i + 1);
          return Err(e.error);
        }
        if e.value.Some? {
          edits := edits + [e.value.value];
        }
      }
      assert paths[..|paths|] == paths;
      return Ok(edits);
    }

    /** Each path holds what the approved state says of it, or the base where that says nothing. It stops at a path
        whose state cannot be read. */
    method Restore(paths: seq<Path>) returns (r: Option<Refusal>, ghost done: nat)
      modifies this
      ensures done <= |paths| && forall k :: 0 <= k < done ==> Current(approvals.base, approvals.files, paths[k]).Ok?
      ensures worktree == Restored(approvals.base, approvals.files, old(worktree), set k | 0 <= k < done :: paths[k])
      ensures r.None? ==> done == |paths|
      ensures r.Some? ==> done < |paths| && Current(approvals.base, approvals.files, paths[done]) == Err(r.value)
    {
      hide Current;
      done := 0;
      for i := 0 to |paths|
        invariant i == done && forall k :: 0 <= k < done ==> Current(approvals.base, approvals.files, paths[k]).Ok?
        invariant worktree == Restored(approvals.base, approvals.files, old(worktree),
                                       set k | 0 <= k < done :: paths[k])
      {
        var p := paths[i];
        var f := Current(approvals.base, approvals.files, p);
        if f.Err? {
          return Some(f.error), i;
        }
        RestoredNext(approvals.base, approvals.files, old(worktree), paths, done);
        worktree := if f.value.None? then worktree - {p} else worktree[p := Regular(f.value.value)];
        done := done + 1;
      }
      return None, |paths|;
    }

    /** Each proposed path holds its approved content. It stops at a path that is refused, or that something else than
        a file has taken, with the paths before it written. */
    method Apply(next: State) returns (r: Option<Refusal>, ghost done: set<Path>)
      modifies this
      ensures done <= next.Keys && worktree == Written(old(worktree), map p | p in next && p in done :: next[p])
      ensures r.None? ==> worktree == Written(old(worktree), next)
      ensures r.None? <==> forall p :: p in next ==> CleanPath(p).Some? && !Escapes(old(worktree), p)
    {
      hide CleanPath, Escapes;
      var left := next.Keys;
      done := {};
      NothingWritten(worktree, next, done);
      while left != {}
        invariant left <= next.Keys && done == next.Keys - left
        invariant worktree == Written(old(worktree), map p | p in next && p in done :: next[p])
        invariant forall p :: p in done ==> CleanPath(p).Some? && !Escapes(old(worktree), p)
      {
        var p :| p in left;
        WrittenEscapes(old(worktree), next, done, p);
        if CleanPath(p).None? || Escapes(worktree, p) {
          return Some(BadPath), done;
        }
        WrittenNext(old(worktree), next, done, p);
        left, done := left - {p}, done + {p};
        worktree := if next[p].Gone? then worktree - {p} else worktree[p := Regular(next[p].file)];
      }
      assert (map p | p in next && p in done :: next[p]) == next;
      return None, done;
    }

    /** The violations, one for each path that is not as approved and one for a moved branch. */
    method Verify() returns (out: seq<Violation>)
      requires approvals.Valid()
      ensures forall v :: v in out <==> v in ViolationsOf(git, base, worktree, approvals.files)
    {
      hide CleanPath, Status, Holds, Escapes;
      out := if git.head.id != base.id then [BranchMoved] else [];
      var left := approvals.files.Keys;
      while left != {}
        invariant left <= approvals.files.Keys
        invariant forall v :: v in out <==>
                                || (v == BranchMoved && git.head.id != base.id)
                                || (v.PathEscape? && v.path in approvals.files && v.path !in left
                                    && Escapes(worktree, v.path))
                                || (v.ContentMismatch? && v.path in approvals.files && v.path !in left
                                    && !Escapes(worktree, v.path)
                                    && !Holds(worktree, v.path, approvals.files[v.path]))
      {
        var p :| p in left;
        left := left - {p};
        if CleanPath(p).None? || Escapes(worktree, p) { // swapped for something else
          out := out + [PathEscape(p)];
        } else if !Holds(worktree, p, approvals.files[p]) {
          out := out + [ContentMismatch(p)];
        }
      }
      ghost var before := out;
      left := Status(git, worktree);
      while left != {}
        invariant left <= Status(git, worktree)
        invariant forall v :: v in out <==>
                                || v in before
                                || (v.UnapprovedChange? && v.path in Status(git, worktree) && v.path !in left
                                    && v.path !in approvals.files)
      {
        var p :| p in left;
        left := left - {p};
        if p !in approvals.files {
          out := out + [UnapprovedChange(p)];
        }
      }
    }
  }

  /** The commit's tree, made path by path over the base's. */
  method ApplyFiles(base: Tree, files: State) returns (tree: Tree)
    ensures tree == Committed(base, files)
  {
    tree := base;
    var left := files.Keys;
    ghost var done: set<Path> := {};
    NothingWritten(base, files, done);
    while left != {}
      invariant left <= files.Keys && done == files.Keys - left
      invariant tree == Written(base, map p | p in files && p in done :: files[p])
    {
      var p :| p in left;
      WrittenNext(base, files, done, p);
      left, done := left - {p}, done + {p};
      tree := if files[p].Gone? then tree - {p} else tree[p := Regular(files[p].file)];
    }
    assert (map p | p in files && p in done :: files[p]) == files;
  }

  lemma {:induction false} ChangesFault(base: Tree, files: State, worktree: Tree, paths: seq<Path>, i: nat)
    requires i <= |paths| && ChangesAt(base, files, worktree, paths[..i]).Err?
    ensures ChangesAt(base, files, worktree, paths) == ChangesAt(base, files, worktree, paths[..i])
    decreases |paths|
  {
    hide ChangeAt;
    if i < |paths| {
      assert paths[..|paths| - 1][..i] == paths[..i];
      ChangesFault(base, files, worktree, paths[..|paths| - 1], i);
    } else {
      assert paths[..i] == paths;
    }
  }

  lemma RestoredNext(base: Tree, files: State, worktree: Tree, paths: seq<Path>, n: nat)
    requires n < |paths| && forall i :: 0 <= i <= n ==> Current(base, files, paths[i]).Ok?
    ensures var was := Restored(base, files, worktree, set i | 0 <= i < n :: paths[i]);
            var p, f := paths[n], Current(base, files, paths[n]).value;
            Restored(base, files, worktree, set i | 0 <= i < n + 1 :: paths[i]) ==
            if f.None? then was - {p} else was[p := Regular(f.value)]
  {
    hide Current;
    assert (set i | 0 <= i < n + 1 :: paths[i]) == (set i | 0 <= i < n :: paths[i]) + {paths[n]};
  }

  lemma NothingWritten(worktree: Tree, next: State, none: set<Path>)
    requires none == {}
    ensures Written(worktree, map p | p in next && p in none :: next[p]) == worktree
  {}

  lemma WrittenNext(worktree: Tree, next: State, done: set<Path>, p: Path)
    requires p in next && p !in done
    ensures var was := Written(worktree, map q | q in next && q in done :: next[q]);
            Written(worktree, map q | q in next && q in done + {p} :: next[q])
            == if next[p].Gone? then was - {p} else was[p := Regular(next[p].file)]
  {}

  /** A path that is not written yet is as it was. */
  lemma WrittenEscapes(worktree: Tree, next: State, done: set<Path>, p: Path)
    requires p !in done
    ensures Escapes(Written(worktree, map q | q in next && q in done :: next[q]), p) <==> Escapes(worktree, p)
  {}

  // ----- a change that is listed, derived and recorded is what is there -----

  function FileAt(t: Tree, p: Path): Option<File> {
    if p in t && t[p].Regular? then Some(t[p].file) else None
  }

  lemma MarkersDiffer()
    ensures NEW_FILE != DELETE_FILE
  {
    assert NEW_FILE[0] == 40 && NEW_FILE[1] == 110 && DELETE_FILE[1] == 100;
  }

  /** Of one path: nothing is listed only when the worktree's file is the approved one, and an edit that is listed,
      if it can be approved, means exactly the worktree's file, bytes and mode. */
  lemma ChangeIsWhole(base: Tree, files: State, worktree: Tree, p: Path)
    requires ChangeAt(base, files, worktree, p).Ok? && (p in worktree ==> worktree[p].Regular?)
    ensures var e := ChangeAt(base, files, worktree, p).value;
            if e.None? then Current(base, files, p) == Ok(FileAt(worktree, p))
            else e.value.path == p && Current(base, files, p).Ok?
                 && var a := Edited(e.value, Current(base, files, p)); a.Ok? ==> FileOf(a.value) == FileAt(worktree, p)
  {
    MarkersDiffer();
    hide Utf8.Valid, Current, NEW_FILE, DELETE_FILE;
  }

  lemma ChangeAdopted(base: Tree, files: State, worktree: Tree, next: State, p: Path, e: Edit)
    requires Canonical(p) && (p in worktree ==> worktree[p].Regular?) && p !in next
    requires ChangeAt(base, files, worktree, p) == Ok(Some(e)) && EditNext(base, files, next, e).Ok?
    ensures var after := EditNext(base, files, next, e).value;
            && after.Keys == next.Keys + {p} && (forall q :: q in next ==> after[q] == next[q])
            && FileOf(after[p]) == FileAt(worktree, p)
  {
    hide ChangeAt, CleanPath, Canonical, InGit, Edited, AtBase, FileAt, IsText, FileOf, NEW_FILE, DELETE_FILE;
    ChangeIsWhole(base, files, worktree, p);
    CleanCanonical(p);
    assert Current(base, files + next, p) == Current(base, files, p);
  }

  /** With next recorded, each path's approved state is what the worktree holds there; no path but these is in next. */
  predicate Adopts(base: Tree, files: State, worktree: Tree, paths: seq<Path>, next: State) {
    && (forall p :: p in next ==> p in paths)
    && (forall p :: p in paths ==> Current(base, files + next, p) == Ok(FileAt(worktree, p)))
  }

  lemma AdoptsOneMore(base: Tree, files: State, worktree: Tree, front: seq<Path>, next: State, p: Path, after: State)
    requires Adopts(base, files, worktree, front, next) && p !in front
    requires if after == next then Current(base, files, p) == Ok(FileAt(worktree, p))
             else
               && after.Keys == next.Keys + {p}
               && (forall q :: q in next ==> after[q] == next[q])
               && FileOf(after[p]) == FileAt(worktree, p)
    ensures Adopts(base, files, worktree, front + [p], after)
  {
    hide AtBase, FileAt, FileOf;
    forall q | q in front + [p] ensures Current(base, files + after, q) == Ok(FileAt(worktree, q)) {
      if q != p {
        assert q in front;
        assert Current(base, files + next, q) == Ok(FileAt(worktree, q));
      }
    }
  }

  /** The last path's change, on top of what the ones before it list and derive. */
  lemma LastChange(base: Tree, files: State, worktree: Tree, front: seq<Path>, p: Path)
    requires ChangesAt(base, files, worktree, front + [p]).Ok?
    ensures ChangesAt(base, files, worktree, front).Ok? && ChangeAt(base, files, worktree, p).Ok?
    ensures var edits, e := ChangesAt(base, files, worktree, front).value, ChangeAt(base, files, worktree, p).value;
            && ChangesAt(base, files, worktree, front + [p]).value == (if e.None? then edits else edits + [e.value])
            && (e.Some? ==>
                  Derived(base, files, edits + [e.value]) == match Derived(base, files, edits)
                                                             case Err(why) => Err(why)
                                                             case Ok(next) => EditNext(base, files, next, e.value))
  {
    hide ChangeAt, EditNext;
    assert (front + [p])[..|front|] == front;
    var edits, e := ChangesAt(base, files, worktree, front).value, ChangeAt(base, files, worktree, p).value;
    if e.Some? {
      assert (edits + [e.value])[..|edits|] == edits;
    }
  }

  /** Distinct paths of files whose changes are listed in order and derived are adopted as they are in the worktree. */
  lemma {:induction false} ChangesAreWhole(base: Tree, files: State, worktree: Tree, paths: seq<Path>)
    requires forall i, j :: 0 <= i < j < |paths| ==> paths[i] != paths[j]
    requires forall i :: 0 <= i < |paths| ==>
        Canonical(paths[i]) && (paths[i] in worktree ==> worktree[paths[i]].Regular?)
    requires ChangesAt(base, files, worktree, paths).Ok?
    requires Derived(base, files, ChangesAt(base, files, worktree, paths).value).Ok?
    ensures var edits := ChangesAt(base, files, worktree, paths).value;
            Adopts(base, files, worktree, paths, Derived(base, files, edits).value)
  {
    hide ChangesAt, Derived, ChangeAt, Canonical, FileAt, FileOf, EditNext, Adopts, Current;
    if paths != [] {
      var front, p := paths[..|paths| - 1], paths[|paths| - 1];
      assert paths == front + [p];
      LastChange(base, files, worktree, front, p);
      var edits := ChangesAt(base, files, worktree, front).value;
      var e := ChangeAt(base, files, worktree, p).value;
      ChangesAreWhole(base, files, worktree, front);
      var next := Derived(base, files, edits).value;
      NotAdopted(base, files, worktree, front, next, p);
      if e.Some? {
        ChangeAdopted(base, files, worktree, next, p, e.value);
        AdoptsOneMore(base, files, worktree, front, next, p, EditNext(base, files, next, e.value).value);
      } else {
        ChangeIsWhole(base, files, worktree, p);
        AdoptsOneMore(base, files, worktree, front, next, p, next);
      }
    } else {
      NothingAdopted(base, files, worktree);
    }
  }

  lemma NothingAdopted(base: Tree, files: State, worktree: Tree)
    ensures ChangesAt(base, files, worktree, []) == Ok([]) && Derived(base, files, []) == Ok(map[])
    ensures Adopts(base, files, worktree, [], map[])
  {}

  lemma NotAdopted(base: Tree, files: State, worktree: Tree, paths: seq<Path>, next: State, p: Path)
    requires Adopts(base, files, worktree, paths, next) && p !in paths
    ensures p !in next
  {}
}
