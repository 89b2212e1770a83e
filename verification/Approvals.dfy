/** What a run's approvals mean: the base commit and, over it, the state each decided proposal derives from exactly
    its edits. */
module Approvals {
  import opened Wrappers
  import opened Bytes
  import opened Paths
  import Newlines
  import Utf8

  datatype Mode = Plain | Executable

  datatype File = File(content: Bytes, mode: Mode)

  /** What was approved for a path. */
  datatype Approved = Gone | Kept(file: File)

  /** An entry of a tree: a file, or something else: a symbolic link to a target, or a submodule at one. */
  datatype Entry = Regular(file: File) | Irregular(target: Bytes)

  type Tree = map<Path, Entry>
  type State = map<Path, Approved>

  /** A whole file's content in base64; broken when the text has line breaks. */
  datatype Base64 = NoContent | NotBase64 | Encoded(bytes: Bytes, broken: bool)

  datatype Edit = Edit(path: Bytes, search: Bytes, replace: Bytes, content: Base64, mode: string)

  datatype Refusal =
    | NotText | BadPath | NotRegular | TooLarge | BadMode
    | TwoContents | BadBase64 | TextAsBinary | Misplaced | Missing | NotFound

  const MAX_TEXT := 200 * 1024
  const MAX_BINARY := 2 * 1024 * 1024

  const NEW_FILE: Bytes := [40, 110, 101, 119, 32, 102, 105, 108, 101, 41] // (new file)
  const DELETE_FILE: Bytes := [40, 100, 101, 108, 101, 116, 101, 32, 102, 105, 108, 101, 41] // (delete file)

  predicate IsText(e: Edit) {
    Utf8.Valid(e.path) && Utf8.Valid(e.search) && Utf8.Valid(e.replace)
  }

  // ----- the state approving a proposal would produce -----

  /** A whole new file's bytes: text in the replace block, or bytes that are not text in base64. */
  function NewContent(e: Edit): Result<Bytes, Refusal> {
    match e.content
    case NoContent => if |e.replace| > MAX_TEXT then Err(TooLarge) else Ok(e.replace)
    case NotBase64 => Err(if e.replace != [] then TwoContents else BadBase64)
    case Encoded(b, _) =>
      if e.replace != [] then Err(TwoContents)
      else if Utf8.Valid(b) then Err(TextAsBinary)
      else if |b| > MAX_BINARY then Err(TooLarge)
      else Ok(b)
  }

  /** A whole new file's mode: the one it names, or the one of the file it overwrites. */
  function NewMode(mode: string, current: Option<File>): Result<Mode, Refusal> {
    if mode == "" then Ok(if current.Some? then current.value.mode else Plain)
    else if mode == "100644" then Ok(Plain)
    else if mode == "100755" then Ok(Executable)
    else Err(BadMode)
  }

  /** What an edit makes of its path's state; reading that state can itself be refused. */
  function Edited(e: Edit, current: Result<Option<File>, Refusal>): Result<Approved, Refusal> {
    if e.search == NEW_FILE then
      match NewContent(e)
      case Err(why) => Err(why)
      case Ok(content) =>
        match current
        case Err(why) => Err(why)
        case Ok(f) =>
          match NewMode(e.mode, f)
          case Err(why) => Err(why)
          case Ok(mode) => Ok(Kept(File(content, mode)))
    else if e.content != NoContent || e.mode != "" then Err(Misplaced)
    else
      match current
      case Err(why) => Err(why)
      case Ok(None) => Err(Missing)
      case Ok(Some(f)) =>
        if e.search == DELETE_FILE then Ok(Gone)
        else
          match Newlines.EditContent(f.content, e.search, e.replace)
          case None => Err(NotFound)
          case Some(content) => Ok(Kept(File(content, f.mode)))
  }

  /** A path's file at the base commit, if it has one. */
  function AtBase(base: Tree, p: Path): Result<Option<File>, Refusal> {
    if p !in base then Ok(None)
    else match base[p]
      case Regular(f) => Ok(Some(f))
      case Irregular(_) => Err(NotRegular)
  }

  function FileOf(a: Approved): Option<File> {
    match a
    case Gone => None
    case Kept(f) => Some(f)
  }

  /** A path's approved state: what was approved for it, or what the base commit has. */
  function Current(base: Tree, files: State, p: Path): Result<Option<File>, Refusal> {
    if p in files then Ok(FileOf(files[p])) else AtBase(base, p)
  }

  /** One edit, on top of what the edits before it derive. */
  function EditNext(base: Tree, files: State, next: State, e: Edit): Result<State, Refusal> {
    if !IsText(e) then Err(NotText)
    else
      match CleanPath(e.path)
      case None => Err(BadPath)
      case Some(p) =>
        match Edited(e, Current(base, files + next, p))
        case Err(why) => Err(why)
        case Ok(a) => Ok(next[p := a])
  }

  /** The paths a proposal changes and what they come to, when every edit can be approved as shown. */
  function Derived(base: Tree, files: State, edits: seq<Edit>): Result<State, Refusal> {
    if edits == [] then Ok(map[])
    else
      match Derived(base, files, edits[..|edits| - 1])
      case Err(why) => Err(why)
      case Ok(next) => EditNext(base, files, next, edits[|edits| - 1])
  }

  /** Each path is one that the trust boundary accepts, as it leaves it. */
  predicate CleanKeys(files: State) {
    forall p :: p in files ==> CleanPath(p) == Some(p)
  }

  class Record {
    const base: Tree
    var files: State

    ghost predicate Valid()
      reads this
    {
      CleanKeys(files)
    }

    constructor (base: Tree)
      ensures Valid() && this.base == base && files == map[]
    {
      this.base, files := base, map[];
    }

    /** What the edits derive from the recorded state, which stays as it is. */
    method Derive(edits: seq<Edit>) returns (r: Result<State, Refusal>)
      ensures r == Derived(base, files, edits)
    {
      hide EditNext;
      var next: State := map[];
      for i := 0 to |edits|
        invariant Derived(base, files, edits[..i]) == Ok(next)
      {
        var e := edits[i];
        assert edits[..i + 1][..i] == edits[..i];
        var step := DeriveEdit(e, next);
        if step.Err? {
          RefusalStays(base, files, edits, i + 1);
          return Err(step.error);
        }
        next := step.value;
      }
      assert edits[..|edits|] == edits;
      return Ok(next);
    }

    /** One edit, on top of the edits before it. */
    method DeriveEdit(e: Edit, next: State) returns (r: Result<State, Refusal>)
      ensures r == EditNext(base, files, next, e)
    {
      hide Edited, CleanPath, IsText, AtBase;
      if !IsText(e) {
        return Err(NotText);
      }
      var p := CleanPath(e.path);
      if p.None? {
        return Err(BadPath);
      }
      var current := if p.value in next then Ok(FileOf(next[p.value])) else Current(base, files, p.value);
      var a := Edited(e, current);
      if a.Err? {
        return Err(a.error);
      }
      return Ok(next[p.value := a.value]);
    }

    /** Adopts a derived state once its decision is on the chain. */
    method Adopt(next: State)
      requires Valid() && CleanKeys(next)
      modifies this
      ensures Valid() && files == old(files) + next
    {
      hide CleanPath;
      var left := next.Keys;
      while left != {}
        invariant left <= next.Keys
        invariant files.Keys == old(files).Keys + (next.Keys - left)
        invariant forall p :: p in files ==> files[p] == if p in next && p !in left then next[p] else old(files)[p]
      {
        var p :| p in left;
        files, left := files[p := next[p]], left - {p};
      }
      assert files == old(files) + next;
    }
  }

  // ----- what it keeps -----

  lemma {:induction false} RefusalStays(base: Tree, files: State, edits: seq<Edit>, i: nat)
    requires i <= |edits| && Derived(base, files, edits[..i]).Err?
    ensures Derived(base, files, edits) == Derived(base, files, edits[..i])
    decreases |edits|
  {
    if i < |edits| {
      assert edits[..|edits| - 1][..i] == edits[..i];
      RefusalStays(base, files, edits[..|edits| - 1], i);
    } else {
      assert edits[..i] == edits;
    }
  }

  /** Each path a proposal changes is one the trust boundary accepts, as it leaves it. */
  lemma {:induction false} DerivedKeysClean(base: Tree, files: State, edits: seq<Edit>)
    ensures Derived(base, files, edits).Ok? ==> CleanKeys(Derived(base, files, edits).value)
  {
    if edits != [] {
      var e := edits[|edits| - 1];
      DerivedKeysClean(base, files, edits[..|edits| - 1]);
      if CleanPath(e.path).Some? {
        CleanIsSettled(e.path);
      }
      hide CleanPath, Edited, IsText, Current;
    }
  }

  /** Deciding a list of edits at once is deciding its parts one after the other, each recorded before the next: the
      same state, and the same refusal. */
  lemma {:induction false} DerivedInParts(base: Tree, files: State, a: seq<Edit>, b: seq<Edit>)
    ensures Derived(base, files, a + b) ==
            match Derived(base, files, a)
            case Err(why) => Err(why)
            case Ok(first) =>
              match Derived(base, files + first, b)
              case Err(why) => Err(why)
              case Ok(second) => Ok(first + second)
  {
    hide EditNext;
    if b == [] {
      assert a + b == a;
      if Derived(base, files, a).Ok? {
        var first := Derived(base, files, a).value;
        assert first + map[] == first;
      }
    } else {
      var front, e := b[..|b| - 1], b[|b| - 1];
      DerivedInParts(base, files, a, front);
      assert (a + b)[..|a + b| - 1] == a + front && (a + b)[|a + b| - 1] == e;
      if Derived(base, files, a).Ok? && Derived(base, files + Derived(base, files, a).value, front).Ok? {
        EditNextInParts(base, files, Derived(base, files, a).value,
                        Derived(base, files + Derived(base, files, a).value, front).value, e);
      }
    }
  }

  lemma EditNextInParts(base: Tree, files: State, first: State, second: State, e: Edit)
    ensures EditNext(base, files, first + second, e) ==
            match EditNext(base, files + first, second, e)
            case Err(why) => Err(why)
            case Ok(next) => Ok(first + next)
  {
    hide CleanPath, Edited, IsText, Current;
    assert files + (first + second) == (files + first) + second;
    if CleanPath(e.path).Some? {
      var p := CleanPath(e.path).value;
      var r := Edited(e, Current(base, files + (first + second), p));
      if r.Ok? {
        assert (first + second)[p := r.value] == first + second[p := r.value];
      }
    }
  }
}
