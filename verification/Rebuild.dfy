/** Rebuilding a commit from a ledger of decided proposals, in the program's way and in the specification's: the
    reference keeps one flat map of the files and knows nothing of a base commit under it. */
module Rebuild {
  import opened Wrappers
  import opened Bytes
  import opened Paths
  import opened Approvals
  import Newlines
  import Utf8

  /** The reference's files. */
  type Flat = map<Path, File>

  /** What one proposal changes in the reference; None is a deleted file. */
  type Changes = map<Path, Option<File>>

  function FlatContent(e: Edit): Option<Bytes> {
    if e.content.NoContent? then (if |e.replace| > MAX_TEXT then None else Some(e.replace))
    else if e.replace != [] || !e.content.Encoded? || e.content.broken then None
    else if Utf8.Valid(e.content.bytes) || |e.content.bytes| > MAX_BINARY then None
    else Some(e.content.bytes)
  }

  function FlatMode(mode: string, current: Option<File>): Mode {
    if mode == "100755" || (mode == "" && current.Some? && current.value.mode == Executable)
    then Executable
    else Mode.Plain
  }

  /** One edit in the reference, which has no reasons for refusing. */
  function FlatEdit(e: Edit, current: Option<File>): Option<Option<File>> {
    if (e.content != NoContent || e.mode != "") && e.search != NEW_FILE then None
    else if e.mode !in ["", "100644", "100755"] then None
    else if e.search == NEW_FILE then
      match FlatContent(e)
      case None => None
      case Some(data) => Some(Some(File(data, FlatMode(e.mode, current))))
    else if current.None? then None
    else if e.search == DELETE_FILE then Some(None)
    else
      match Newlines.EditContent(current.value.content, e.search, e.replace)
      case None => None
      case Some(content) => Some(Some(File(content, current.value.mode)))
  }

  function FlatCurrent(files: Flat, nxt: Changes, p: Path): Option<File> {
    if p in nxt then nxt[p] else if p in files then Some(files[p]) else None
  }

  function FlatNext(files: Flat, nxt: Changes, e: Edit): Option<Changes> {
    match CleanPath(e.path)
    case None => None
    case Some(p) =>
      match FlatEdit(e, FlatCurrent(files, nxt, p))
      case None => None
      case Some(f) => Some(nxt[p := f])
  }

  function FlatDerived(files: Flat, edits: seq<Edit>): Option<Changes> {
    if edits == [] then Some(map[])
    else
      match FlatDerived(files, edits[..|edits| - 1])
      case None => None
      case Some(nxt) => FlatNext(files, nxt, edits[|edits| - 1])
  }

  /** The files with a proposal's changes made. */
  function Changed(files: Flat, nxt: Changes): Flat {
    map p | p in files.Keys + nxt.Keys && (p in nxt ==> nxt[p].Some?) :: if p in nxt then nxt[p].value else files[p]
  }

  function FlatRebuilt(files: Flat, proposals: seq<seq<Edit>>): Option<Flat> {
    if proposals == [] then Some(files)
    else
      match FlatRebuilt(files, proposals[..|proposals| - 1])
      case None => None
      case Some(so) =>
        match FlatDerived(so, proposals[|proposals| - 1])
        case None => None
        case Some(nxt) => Some(Changed(so, nxt))
  }

  method FlatDerive(files: Flat, edits: seq<Edit>) returns (r: Option<Changes>)
    ensures r == FlatDerived(files, edits)
  {
    hide FlatEdit, CleanPath;
    var nxt: Changes := map[];
    for i := 0 to |edits|
      invariant FlatDerived(files, edits[..i]) == Some(nxt)
    {
      var e := edits[i];
      assert edits[..i + 1][..i] == edits[..i];
      var p := CleanPath(e.path);
      var f := if p.Some? then FlatEdit(e, FlatCurrent(files, nxt, p.value)) else None;
      if f.None? {
        assert FlatDerived(files, edits[..i + 1]).None?;
        FlatRefusalStays(files, edits, i + 1);
        return None;
      }
      nxt := nxt[p.value := f.value];
    }
    assert edits[..|edits|] == edits;
    return Some(nxt);
  }

  lemma {:induction false} FlatRefusalStays(files: Flat, edits: seq<Edit>, i: nat)
    requires i <= |edits| && FlatDerived(files, edits[..i]).None?
    ensures FlatDerived(files, edits).None?
    decreases |edits|
  {
    hide FlatNext;
    if i < |edits| {
      assert edits[..|edits| - 1][..i] == edits[..i];
      FlatRefusalStays(files, edits[..|edits| - 1], i);
    } else {
      assert edits[..i] == edits;
    }
  }

  method Change(start: Flat, nxt: Changes) returns (files: Flat)
    ensures files == Changed(start, nxt)
  {
    files := start;
    var left := nxt.Keys;
    while left != {}
      invariant left <= nxt.Keys
      invariant forall p :: p in files <==>
          p in start.Keys + nxt.Keys && (if p in nxt && p !in left then nxt[p].Some? else p in start)
      invariant forall p :: p in files ==> files[p] == if p in nxt && p !in left then nxt[p].value else start[p]
    {
      var p :| p in left;
      left := left - {p};
      files := if nxt[p].None? then files - {p} else files[p := nxt[p].value];
    }
  }

  method FlatRebuild(base: Flat, proposals: seq<seq<Edit>>) returns (r: Option<Flat>)
    ensures r == FlatRebuilt(base, proposals)
  {
    hide FlatDerived, Changed;
    var files := base;
    for i := 0 to |proposals|
      invariant FlatRebuilt(base, proposals[..i]) == Some(files)
    {
      assert proposals[..i + 1][..i] == proposals[..i];
      var nxt := FlatDerive(files, proposals[i]);
      if nxt.None? {
        assert FlatRebuilt(base, proposals[..i + 1]).None?;
        FlatRebuiltStays(base, proposals, i + 1);
        return None;
      }
      files := Change(files, nxt.value);
    }
    assert proposals[..|proposals|] == proposals;
    return Some(files);
  }

  lemma {:induction false} FlatRebuiltStays(files: Flat, proposals: seq<seq<Edit>>, i: nat)
    requires i <= |proposals| && FlatRebuilt(files, proposals[..i]).None?
    ensures FlatRebuilt(files, proposals).None?
    decreases |proposals|
  {
    hide FlatDerived, Changed;
    if i < |proposals| {
      assert proposals[..|proposals| - 1][..i] == proposals[..i];
      FlatRebuiltStays(files, proposals[..|proposals| - 1], i);
    } else {
      assert proposals[..i] == proposals;
    }
  }

  // ----- the program's way -----

  /** Each proposal derived on what the ones before it made, and recorded. */
  function Decided(base: Tree, proposals: seq<seq<Edit>>): Result<State, Refusal> {
    if proposals == [] then Ok(map[])
    else
      match Decided(base, proposals[..|proposals| - 1])
      case Err(why) => Err(why)
      case Ok(files) =>
        match Derived(base, files, proposals[|proposals| - 1])
        case Err(why) => Err(why)
        case Ok(next) => Ok(files + next)
  }

  lemma {:induction false} DecidedStays(base: Tree, proposals: seq<seq<Edit>>, i: nat)
    requires i <= |proposals| && Decided(base, proposals[..i]).Err?
    ensures Decided(base, proposals) == Decided(base, proposals[..i])
    decreases |proposals|
  {
    hide Derived;
    if i < |proposals| {
      assert proposals[..|proposals| - 1][..i] == proposals[..i];
      DecidedStays(base, proposals[..|proposals| - 1], i);
    } else {
      assert proposals[..i] == proposals;
    }
  }

  method RebuildState(base: Tree, proposals: seq<seq<Edit>>) returns (r: Result<State, Refusal>)
    ensures r == Decided(base, proposals)
  {
    hide Derived, CleanKeys;
    var a := new Record(base);
    for i := 0 to |proposals|
      invariant a.Valid() && fresh(a) && a.base == base
      invariant Decided(base, proposals[..i]) == Ok(a.files)
    {
      assert proposals[..i + 1][..i] == proposals[..i];
      var next := a.Derive(proposals[i]);
      if next.Err? {
        assert Decided(base, proposals[..i + 1]).Err?;
        DecidedStays(base, proposals, i + 1);
        return Err(next.error);
      }
      DerivedKeysClean(base, a.files, proposals[i]);
      a.Adopt(next.value);
    }
    assert proposals[..|proposals|] == proposals;
    return Ok(a.files);
  }

  // ----- the two agree -----

  /** The base commit as the reference can hold it. */
  predicate AllRegular(base: Tree) {
    forall p :: p in base ==> base[p].Regular?
  }

  /** Every path's file: the flat map the approved state stands for. */
  function FlatOf(base: Tree, files: State): Flat
    requires AllRegular(base)
  {
    map p | p in base.Keys + files.Keys && (p in files ==> files[p].Kept?) ::
      if p in files then files[p].file else base[p].file
  }

  function ChangesOf(next: State): Changes {
    map p | p in next :: FileOf(next[p])
  }

  /** Base64 with line breaks, which the program reads and the reference refuses. */
  predicate Broken(e: Edit) {
    e.content.Encoded? && e.content.broken
  }

  predicate AnyBroken(edits: seq<Edit>) {
    exists i :: 0 <= i < |edits| && Broken(edits[i])
  }

  predicate AllText(edits: seq<Edit>) {
    forall i :: 0 <= i < |edits| ==> IsText(edits[i])
  }

  lemma FlatSees(base: Tree, files: State, next: State, p: Path)
    requires AllRegular(base)
    ensures Current(base, files + next, p) == Ok(FlatCurrent(FlatOf(base, files), ChangesOf(next), p))
  {}

  lemma EditsAlike(e: Edit, current: Option<File>)
    ensures Edited(e, Ok(current)).Ok? && !Broken(e) <==> FlatEdit(e, current).Some?
    ensures FlatEdit(e, current).Some? ==> FileOf(Edited(e, Ok(current)).value) == FlatEdit(e, current).value
  {
    hide Newlines.EditContent, Utf8.Valid;
  }

  /** One proposal: where the program accepts it and the reference does not, its base64 has line breaks; where the
      reference accepts it and the program does not, its text is not UTF-8; and where both do, they change the same
      paths to the same files. */
  lemma {:induction false} DerivesAlike(base: Tree, files: State, edits: seq<Edit>)
    requires AllRegular(base)
    ensures var d, f := Derived(base, files, edits), FlatDerived(FlatOf(base, files), edits);
            && (d.Ok? && !AnyBroken(edits) <==> f.Some? && AllText(edits))
            && (d.Ok? && f.Some? ==> f.value == ChangesOf(d.value))
  {
    hide FlatOf, EditNext, FlatNext, IsText, ChangesOf, Broken;
    if edits == [] {
      NothingChanged();
    } else {
      var front, e := edits[..|edits| - 1], edits[|edits| - 1];
      DerivesAlike(base, files, front);
      assert AnyBroken(edits) <==> AnyBroken(front) || Broken(e) by {
        assert forall i :: 0 <= i < |front| ==> front[i] == edits[i];
      }
      assert AllText(edits) <==> AllText(front) && IsText(e) by {
        assert forall i :: 0 <= i < |front| ==> front[i] == edits[i];
      }
      var d, f := Derived(base, files, front), FlatDerived(FlatOf(base, files), front);
      if d.Ok? && f.Some? {
        NextAlike(base, files, d.value, e);
      }
    }
  }

  lemma NextAlike(base: Tree, files: State, next: State, e: Edit)
    requires AllRegular(base)
    ensures var d, f := EditNext(base, files, next, e), FlatNext(FlatOf(base, files), ChangesOf(next), e);
            && (d.Ok? && !Broken(e) <==> f.Some? && IsText(e))
            && (d.Ok? && f.Some? ==> f.value == ChangesOf(d.value))
  {
    if CleanPath(e.path).None? {
      return;
    }
    var p := CleanPath(e.path).value;
    FlatSees(base, files, next, p);
    var current := FlatCurrent(FlatOf(base, files), ChangesOf(next), p);
    EditsAlike(e, current);
    hide FlatOf, Current, FlatCurrent, Edited, FlatEdit, CleanPath, IsText, Broken;
    var a := Edited(e, Ok(current));
    if a.Ok? {
      assert ChangesOf(next[p := a.value]) == ChangesOf(next)[p := FileOf(a.value)];
    }
  }

  lemma NothingChanged()
    ensures ChangesOf(map[]) == map[]
  {}

  lemma RecordsAlike(base: Tree, files: State, next: State)
    requires AllRegular(base)
    ensures Changed(FlatOf(base, files), ChangesOf(next)) == FlatOf(base, files + next)
  {}

  /** A whole ledger: with neither exception in it, the reference rebuilds it exactly when the program does, and to
      the same files. */
  lemma {:induction false} RebuildsAlike(base: Tree, proposals: seq<seq<Edit>>)
    requires AllRegular(base)
    ensures var d, f := Decided(base, proposals), FlatRebuilt(FlatOf(base, map[]), proposals);
            && (d.Ok? && (forall i :: 0 <= i < |proposals| ==> !AnyBroken(proposals[i]))
                <==> f.Some? && forall i :: 0 <= i < |proposals| ==> AllText(proposals[i]))
            && (d.Ok? && f.Some? ==> f.value == FlatOf(base, d.value))
  {
    hide FlatOf, Derived, FlatDerived, Changed, ChangesOf, AnyBroken, AllText;
    if proposals != [] {
      var front, edits := proposals[..|proposals| - 1], proposals[|proposals| - 1];
      RebuildsAlike(base, front);
      assert forall i :: 0 <= i < |front| ==> front[i] == proposals[i];
      var d, f := Decided(base, front), FlatRebuilt(FlatOf(base, map[]), front);
      if d.Ok? && f.Some? {
        DerivesAlike(base, d.value, edits);
        if Derived(base, d.value, edits).Ok? {
          RecordsAlike(base, d.value, Derived(base, d.value, edits).value);
        }
      }
    }
  }

  /** The exception at an input: a new file of the one byte 255, whose base64 is broken by a line break, is what the
      program derives and the reference refuses. */
  lemma BrokenBase64Differs()
    ensures var e := Edit([97], NEW_FILE, [], Encoded([255], true), "");
            && Derived(map[], map[], [e]) == Ok(map[[97] := Kept(File([255], Mode.Plain))])
            && FlatDerived(map[], [e]) == None
  {
    hide CleanPath, Utf8.Valid, NEW_FILE;
    var e := Edit([97], NEW_FILE, [], Encoded([255], true), "");
    PlainName();
    NotText();
    assert [e][..0] == [];
    BrokenEdit(e);
  }

  lemma BrokenEdit(e: Edit)
    requires e == Edit([97], NEW_FILE, [], Encoded([255], true), "") && IsText(e) && !Utf8.Valid([255]) &&
        CleanPath([97]) == Some([97])
    ensures EditNext(map[], map[], map[], e) == Ok(map[[97] := Kept(File([255], Mode.Plain))])
    ensures FlatNext(map[], map[], e) == None
  {
    hide CleanPath, Utf8.Valid, NEW_FILE;
    var none: State := map[];
    assert Current(map[], none + none, [97]) == Ok(None);
  }

  /** The other exception, which no ledger holds, being JSON: a new file whose text is the one byte 255 is what the
      program refuses and the reference takes. */
  lemma RawBytesDiffer()
    ensures var e := Edit([97], NEW_FILE, [255], NoContent, "");
            && Derived(map[], map[], [e]) == Err(Refusal.NotText)
            && FlatDerived(map[], [e]) == Some(map[[97] := Some(File([255], Mode.Plain))])
  {
    hide CleanPath, Utf8.Valid, NEW_FILE;
    var e := Edit([97], NEW_FILE, [255], NoContent, "");
    PlainName();
    NotText();
    assert [e][..0] == [];
    RawEdit(e);
  }

  lemma RawEdit(e: Edit)
    requires e == Edit([97], NEW_FILE, [255], NoContent, "") && CleanPath([97]) == Some([97])
    ensures FlatNext(map[], map[], e) == Some(map[[97] := Some(File([255], Mode.Plain))])
  {
    hide CleanPath, Utf8.Valid, NEW_FILE;
    var none: Changes := map[];
    assert FlatNext(map[], none, e) == Some(none[[97] := Some(File([255], Mode.Plain))]);
  }

  lemma NotText()
    ensures !Utf8.Valid([255])
  {}

  lemma PlainName()
    ensures Utf8.Valid([97]) && Utf8.Valid(NEW_FILE) && Utf8.Valid([]) && CleanPath([97]) == Some([97])
  {
    var p: Path := [97];
    PartsFrom(p, []);
    CleanCanonical(p);
    assert [97][1..] == [];
    var n: Bytes := NEW_FILE;
    AsciiText(n);
  }

  lemma {:induction false} AsciiText(b: Bytes)
    requires forall i :: 0 <= i < |b| ==> b[i] < 0x80
    ensures Utf8.Valid(b)
  {
    if b != [] {
      AsciiText(b[1..]);
    }
  }
}
