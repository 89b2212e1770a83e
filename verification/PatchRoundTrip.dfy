/** What an apply_patch text says is what is read: each section that is printed comes back as its edits. */
module PatchRoundTrip {
  import opened Wrappers
  import opened ApplyPatch

  datatype Change = Context(text: string) | Removed(text: string) | Added(text: string)

  /** The lines of one place in a file; the note follows the @@ that starts it, and the last one can be marked as the
      end of the file. */
  datatype Hunk = Hunk(note: string, changes: seq<Change>, marked: bool)

  datatype Section = AddFile(file: string, lines: seq<string>) | DeleteFile(file: string)
      | UpdateFile(file: string, hunks: seq<Hunk>)

  // ----- printing -----

  function LineOf(c: Change): string {
    match c
    case Context(t) => " " + t
    case Removed(t) => "-" + t
    case Added(t) => "+" + t
  }

  function LinesOf(changes: seq<Change>): seq<string> {
    if changes == [] then [] else LinesOf(changes[..|changes| - 1]) + [LineOf(changes[|changes| - 1])]
  }

  function HunkLines(h: Hunk): seq<string> {
    ["@@" + h.note] + LinesOf(h.changes) + if h.marked then ["*** End of File"] else []
  }

  function HunksLines(hunks: seq<Hunk>): seq<string> {
    if hunks == [] then [] else HunksLines(hunks[..|hunks| - 1]) + HunkLines(hunks[|hunks| - 1])
  }

  function Plussed(lines: seq<string>): seq<string> {
    if lines == [] then [] else Plussed(lines[..|lines| - 1]) + ["+" + lines[|lines| - 1]]
  }

  function SectionLines(x: Section): seq<string> {
    match x
    case AddFile(f, lines) => [ADD + f] + Plussed(lines)
    case DeleteFile(f) => [DELETE + f]
    case UpdateFile(f, hunks) => [UPDATE + f] + HunksLines(hunks)
  }

  function AllLines(sections: seq<Section>): seq<string> {
    if sections == [] then [] else AllLines(sections[..|sections| - 1]) + SectionLines(sections[|sections| - 1])
  }

  /** The patch, followed by any number of newlines. */
  function Print(sections: seq<Section>, newlines: nat): string {
    Join([BEGIN] + AllLines(sections) + [END]) + seq(newlines, _ => '\n')
  }

  // ----- meaning -----

  /** The lines to find. */
  function Found(changes: seq<Change>): seq<string> {
    if changes == [] then []
    else
      var c := changes[|changes| - 1];
      Found(changes[..|changes| - 1]) + if c.Added? then [] else [c.text]
  }

  /** The lines that take their place. */
  function Placed(changes: seq<Change>): seq<string> {
    if changes == [] then []
    else
      var c := changes[|changes| - 1];
      Placed(changes[..|changes| - 1]) + if c.Removed? then [] else [c.text]
  }

  /** Each line with its line break. */
  function Text(lines: seq<string>): string {
    if lines == [] then "" else lines[0] + "\n" + Text(lines[1..])
  }

  /** What a hunk puts in place of the lines it finds: its lines, but one line break when it leaves none. */
  function Replacement(changes: seq<Change>): string {
    if Placed(changes) == [] then "\n" else Text(Placed(changes))
  }

  function HunkEdits(file: string, h: Hunk): seq<Edit> {
    if h.changes == [] then [] else [Edit(file, Text(Found(h.changes)), Replacement(h.changes))]
  }

  function HunksEdits(file: string, hunks: seq<Hunk>): seq<Edit> {
    if hunks == [] then [] else HunksEdits(file, hunks[..|hunks| - 1]) + HunkEdits(file, hunks[|hunks| - 1])
  }

  function SectionEdits(x: Section): seq<Edit> {
    match x
    case AddFile(f, lines) => [Edit(f, NEW_FILE, Text(lines))]
    case DeleteFile(f) => [Edit(f, DELETE_FILE, "")]
    case UpdateFile(f, hunks) => HunksEdits(f, hunks)
  }

  function AllEdits(sections: seq<Section>): seq<Edit> {
    if sections == [] then [] else AllEdits(sections[..|sections| - 1]) + SectionEdits(sections[|sections| - 1])
  }

  /** A hunk that only adds lines cannot be placed. */
  predicate CanPlace(h: Hunk) {
    h.changes != [] ==> Found(h.changes) != []
  }

  /** An update must change something, and each of its hunks have a place. */
  predicate CanRead(x: Section) {
    x.UpdateFile? ==>
        (forall i :: 0 <= i < |x.hunks| ==> CanPlace(x.hunks[i])) && exists i ::
        0 <= i < |x.hunks| && x.hunks[i].changes != []
  }

  // ----- one line at a time -----

  lemma ReadAdd(s: State, f: string)
    ensures Read(s, ADD + f) == Opened(s, f, Add)
  {
    hide Opened;
    assert (ADD + f)[|ADD|..] == f;
  }

  lemma ReadUpdate(s: State, f: string)
    ensures Read(s, UPDATE + f) == Opened(s, f, Update)
  {
    hide Opened;
    assert (UPDATE + f)[|UPDATE|..] == f && (UPDATE + f)[4] == 'U' && ADD[4] == 'A';
  }

  lemma ReadDelete(s: State, f: string)
    ensures Read(s, DELETE + f) == Deleted(s, f)
  {
    hide Deleted;
    assert (DELETE + f)[|DELETE|..] == f && (DELETE + f)[4] == 'D' && ADD[4] == 'A' && UPDATE[4] == 'U';
  }

  lemma NoHeader(l: string)
    requires l == "" || l[0] != '*'
    ensures !(ADD <= l) && !(UPDATE <= l) && !(DELETE <= l) && !("*** Move to: " <= l) && l != "*** End of File" &&
        !("***" <= l)
  {
    assert ADD[0] == UPDATE[0] == DELETE[0] == "*** Move to: "[0] == "*** End of File"[0] == "***"[0] == '*';
  }

  lemma ReadBody(s: State, t: string)
    requires s.kind == Add
    ensures Read(s, "+" + t) == Ok(s.(body := s.body + [t]))
  {
    NoHeader("+" + t);
    assert ("+" + t)[1..] == t;
  }

  lemma ReadChange(s: State, c: Change)
    requires s.kind == Update
    ensures Read(s, LineOf(c)) == Ok(s.(search := s.search + (if c.Added? then [] else [c.text]),
                                        replac := s.replac + (if c.Removed? then [] else [c.text])))
  {
    var l := LineOf(c);
    NoHeader(l);
    hide ADD, UPDATE, DELETE;
    assert l[0] == (if c.Context? then ' ' else if c.Removed? then '-' else '+') && l[1..] == c.text;
    assert s.search + [] == s.search && s.replac + [] == s.replac;
  }

  lemma ReadPlace(s: State, note: string)
    requires s.kind == Update
    ensures Read(s, "@@" + note) == HunkFlushed(s)
  {
    NoHeader("@@" + note);
    hide HunkFlushed;
  }

  lemma ReadMark(s: State)
    ensures Read(s, "*** End of File") == Ok(s)
  {
    var l := "*** End of File";
    assert l[4] == 'E' && ADD[4] == 'A' && UPDATE[4] == 'U' && DELETE[4] == 'D' && "*** Move to: "[4] == 'M';
  }

  lemma {:induction false} ReadAllJoined(s: State, a: seq<string>, b: seq<string>)
    ensures ReadAll(s, a + b) == match ReadAll(s, a) case Err(why) => Err(why) case Ok(t) => ReadAll(t, b)
  {
    hide Read;
    if b == [] {
      assert a + b == a;
    } else {
      ReadAllJoined(s, a, b[..|b| - 1]);
      assert (a + b)[..|a + b| - 1] == a + b[..|b| - 1];
    }
  }

  lemma ReadOne(s: State, l: string)
    ensures ReadAll(s, [l]) == Read(s, l)
  {
    hide Read;
    assert [l][..0] == [];
  }

  // ----- hunks -----

  lemma {:induction false} ReadChanges(s: State, changes: seq<Change>)
    requires s.kind == Update
    ensures ReadAll(s, LinesOf(changes)) == Ok(s.(search := s.search + Found(changes),
                                                  replac := s.replac + Placed(changes)))
  {
    if changes == [] {
      assert s.search + [] == s.search && s.replac + [] == s.replac;
    } else {
      var front, c := changes[..|changes| - 1], changes[|changes| - 1];
      hide Read, ReadAll, LineOf;
      ReadChanges(s, front);
      var t := s.(search := s.search + Found(front), replac := s.replac + Placed(front));
      ReadChange(t, c);
      ReadAllJoined(s, LinesOf(front), [LineOf(c)]);
      ReadOne(t, LineOf(c));
      assert t.search + (if c.Added? then [] else [c.text]) == s.search + Found(changes);
      assert t.replac + (if c.Removed? then [] else [c.text]) == s.replac + Placed(changes);
    }
  }

  lemma {:induction false} JoinIsText(lines: seq<string>)
    requires lines != []
    ensures Join(lines) + "\n" == Text(lines)
  {
    if |lines| > 1 {
      JoinIsText(lines[1..]);
      assert Join(lines) + "\n" == lines[0] + "\n" + (Join(lines[1..]) + "\n");
    } else {
      assert Text(lines[1..]) == "";
    }
  }

  lemma {:induction false} SomeChange(changes: seq<Change>)
    requires changes != []
    ensures Found(changes) != [] || Placed(changes) != []
  {}

  /** With a hunk's edit, if it changes anything. */
  function WithHunk(s: State, h: Hunk): State {
    s.(edits := s.edits + HunkEdits(s.file, h), hunks := s.hunks + if h.changes == [] then 0 else 1)
  }

  predicate Fresh(s: State) {
    s.kind == Update && s.search == [] && s.replac == []
  }

  /** The state with a hunk's lines read, flushed: its edit is there, or it has no place. */
  lemma HunkRead(s: State, h: Hunk)
    requires Fresh(s)
    ensures var r := HunkFlushed(s.(search := Found(h.changes), replac := Placed(h.changes)));
            if CanPlace(h) then r == Ok(WithHunk(s, h)) else r.Err?
  {
    if h.changes == [] {
      assert s.edits + [] == s.edits;
    } else {
      SomeChange(h.changes);
      hide Found, Placed;
      assert Join([]) + "\n" == "\n";
      if Found(h.changes) != [] {
        JoinIsText(Found(h.changes));
        if Placed(h.changes) != [] {
          JoinIsText(Placed(h.changes));
        }
      }
    }
  }

  /** What follows the @@ of a hunk. */
  lemma ReadHunkRest(s: State, h: Hunk)
    requires Fresh(s)
    ensures ReadAll(s, LinesOf(h.changes) + if h.marked then ["*** End of File"] else [])
            == Ok(s.(search := Found(h.changes), replac := Placed(h.changes)))
  {
    ReadChanges(s, h.changes);
    hide Read, Found, Placed;
    assert [] + Found(h.changes) == Found(h.changes) && [] + Placed(h.changes) == Placed(h.changes);
    if h.marked {
      ReadAllJoined(s, LinesOf(h.changes), ["*** End of File"]);
      ReadOne(s.(search := Found(h.changes), replac := Placed(h.changes)), "*** End of File");
      ReadMark(s.(search := Found(h.changes), replac := Placed(h.changes)));
    } else {
      assert LinesOf(h.changes) + [] == LinesOf(h.changes);
    }
  }

  function HunkEnded(r: Result<State, PatchError>): Result<State, PatchError> {
    match r
    case Err(why) => Err(why)
    case Ok(s) => HunkFlushed(s)
  }

  /** Read, then flushed: one more hunk. */
  lemma ReadHunk(s: State, h: Hunk)
    requires s.kind == Update
    ensures var r, read := HunkEnded(ReadAll(s, HunkLines(h))), ReadAll(s, HunkLines(h));
            && (read.Ok? ==> read.value.kind == Update)
            && match HunkFlushed(s)
               case Err(why) => r == Err(why)
               case Ok(t) => if CanPlace(h) then r == Ok(WithHunk(t, h)) else r.Err?
  {
    var rest := LinesOf(h.changes) + if h.marked then ["*** End of File"] else [];
    assert HunkLines(h) == ["@@" + h.note] + rest;
    ReadAllJoined(s, ["@@" + h.note], rest);
    ReadOne(s, "@@" + h.note);
    ReadPlace(s, h.note);
    assert HunkFlushed(s).Ok? ==> Fresh(HunkFlushed(s).value);
    hide HunkFlushed, Read, ReadAll, HunkLines, CanPlace;
    if HunkFlushed(s).Ok? {
      ReadHunkRest(HunkFlushed(s).value, h);
      HunkRead(HunkFlushed(s).value, h);
    }
  }

  predicate AllPlaced(hunks: seq<Hunk>) {
    forall i :: 0 <= i < |hunks| ==> CanPlace(hunks[i])
  }

  function Changing(hunks: seq<Hunk>): nat {
    if hunks == [] then 0 else Changing(hunks[..|hunks| - 1]) + if hunks[|hunks| - 1].changes == [] then 0 else 1
  }

  function WithHunks(s: State, hunks: seq<Hunk>): State {
    s.(edits := s.edits + HunksEdits(s.file, hunks), hunks := s.hunks + Changing(hunks))
  }

  lemma WithHunksSnoc(s: State, hunks: seq<Hunk>)
    requires hunks != []
    ensures WithHunk(WithHunks(s, hunks[..|hunks| - 1]), hunks[|hunks| - 1]) == WithHunks(s, hunks)
  {
    hide HunkEdits;
    var front, h := hunks[..|hunks| - 1], hunks[|hunks| - 1];
    assert (s.edits + HunksEdits(s.file, front)) + HunkEdits(s.file, h) ==
        s.edits + (HunksEdits(s.file, front) + HunkEdits(s.file, h));
  }

  /** An update's hunks, read and flushed: their edits, in order, or one has no place. */
  lemma {:induction false} ReadHunks(s: State, hunks: seq<Hunk>)
    requires Fresh(s)
    ensures var r, read := HunkEnded(ReadAll(s, HunksLines(hunks))), ReadAll(s, HunksLines(hunks));
            && (read.Ok? ==> read.value.kind == Update)
            && if AllPlaced(hunks) then r == Ok(WithHunks(s, hunks)) else r.Err?
  {
    if hunks == [] {
      assert s.edits + [] == s.edits;
    } else {
      var front, h := hunks[..|hunks| - 1], hunks[|hunks| - 1];
      assert AllPlaced(hunks) <==> AllPlaced(front) && CanPlace(h) by {
        assert forall i :: 0 <= i < |front| ==> front[i] == hunks[i];
      }
      assert HunksLines(hunks) == HunksLines(front) + HunkLines(h);
      hide HunksLines, HunkLines, HunkFlushed, CanPlace, AllPlaced, WithHunk, WithHunks, ReadAll;
      ReadHunks(s, front);
      ReadAllJoined(s, HunksLines(front), HunkLines(h));
      WithHunksSnoc(s, hunks);
      if ReadAll(s, HunksLines(front)).Ok? {
        ReadHunk(ReadAll(s, HunksLines(front)).value, h);
      }
    }
  }

  // ----- sections -----

  /** Nothing is left over from a hunk outside an update. */
  predicate Sane(s: State) {
    s.kind != Update ==> s.search == [] && s.replac == []
  }

  predicate Closed(s: State) {
    s.kind == Outside && s.body == [] && s.search == [] && s.replac == [] && s.hunks == 0
  }

  lemma FlushCloses(s: State)
    requires Sane(s) && Flushed(s).Ok?
    ensures Closed(Flushed(s).value)
  {}

  lemma {:induction false} ReadPlussed(s: State, lines: seq<string>)
    requires s.kind == Add
    ensures ReadAll(s, Plussed(lines)) == Ok(s.(body := s.body + lines))
  {
    if lines == [] {
      assert s.body + [] == s.body;
    } else {
      var front, t := lines[..|lines| - 1], lines[|lines| - 1];
      assert Plussed(lines) == Plussed(front) + ["+" + t];
      hide Read, ReadAll, Plussed;
      ReadPlussed(s, front);
      ReadBody(s.(body := s.body + front), t);
      ReadAllJoined(s, Plussed(front), ["+" + t]);
      ReadOne(s.(body := s.body + front), "+" + t);
      assert s.body + front + [t] == s.body + lines by {
        assert lines == front + [t];
      }
    }
  }

  lemma {:induction false} ChangingSome(hunks: seq<Hunk>)
    ensures Changing(hunks) > 0 <==> exists i :: 0 <= i < |hunks| && hunks[i].changes != []
  {
    if hunks != [] {
      var front := hunks[..|hunks| - 1];
      ChangingSome(front);
      assert forall i :: 0 <= i < |front| ==> front[i] == hunks[i];
      if exists i :: 0 <= i < |front| && front[i].changes != [] {
        var i :| 0 <= i < |front| && front[i].changes != [];
        assert hunks[i].changes != [];
      }
    }
  }

  /** Read from where the section before it has ended, and ended itself. */
  ghost predicate ReadsAs(s: State, x: Section) {
    var read := ReadAll(s, SectionLines(x));
    && (read.Ok? ==> Sane(read.value))
    && match Flushed(s)
       case Err(why) => Ended(read) == Err(why)
       case Ok(t) =>
         if CanRead(x)
         then Ended(read).Ok? && Closed(Ended(read).value) && Ended(read).value.edits == t.edits + SectionEdits(x)
         else Ended(read).Err?
  }

  lemma ReadAddFile(s: State, x: Section)
    requires Sane(s) && x.AddFile?
    ensures ReadsAs(s, x)
  {
    ReadAllJoined(s, [ADD + x.file], Plussed(x.lines));
    ReadOne(s, ADD + x.file);
    ReadAdd(s, x.file);
    if Flushed(s).Ok? {
      FlushCloses(s);
      var u := Opened(s, x.file, Add).value;
      hide Read, ReadAll;
      ReadPlussed(u, x.lines);
      assert [] + x.lines == x.lines;
      if x.lines != [] {
        JoinIsText(x.lines);
      }
    }
  }

  lemma ReadDeleteFile(s: State, x: Section)
    requires Sane(s) && x.DeleteFile?
    ensures ReadsAs(s, x)
  {
    ReadOne(s, DELETE + x.file);
    ReadDelete(s, x.file);
    if Flushed(s).Ok? {
      FlushCloses(s);
    }
  }

  lemma UpdateEnds(s: State)
    requires s.kind == Update
    ensures Flushed(s) == match HunkFlushed(s)
                          case Err(why) => Err(why)
                          case Ok(t) =>
                            if t.hunks == 0 then Err(ChangesNothing(t.file))
                            else Ok(t.(kind := Outside, body := [], hunks := 0))
  {}

  /** The hunks of an update that has just been opened. */
  lemma ReadUpdateHunks(u: State, x: Section)
    requires x.UpdateFile? && Fresh(u) && u.file == x.file && u.hunks == 0
    ensures var read := ReadAll(u, HunksLines(x.hunks));
            && (read.Ok? ==> Sane(read.value))
            && if CanRead(x)
               then Ended(read).Ok? && Closed(Ended(read).value) &&
                    Ended(read).value.edits == u.edits + SectionEdits(x)
               else Ended(read).Err?
  {
    ReadHunks(u, x.hunks);
    ChangingSome(x.hunks);
    hide ReadAll, CanPlace, HunkFlushed, Flushed, HunksLines, HunksEdits, Changing;
    var read := ReadAll(u, HunksLines(x.hunks));
    if read.Ok? {
      UpdateEnds(read.value);
    }
  }

  lemma ReadUpdateFile(s: State, x: Section)
    requires Sane(s) && x.UpdateFile?
    ensures ReadsAs(s, x)
  {
    ReadAllJoined(s, [UPDATE + x.file], HunksLines(x.hunks));
    ReadOne(s, UPDATE + x.file);
    ReadUpdate(s, x.file);
    hide Read, ReadAll, HunksLines, CanRead, UPDATE, Flushed, Sane, SectionEdits;
    if Flushed(s).Ok? {
      FlushCloses(s);
      ReadUpdateHunks(Opened(s, x.file, Update).value, x);
    }
  }

  predicate AllCanRead(sections: seq<Section>) {
    forall i :: 0 <= i < |sections| ==> CanRead(sections[i])
  }

  lemma {:induction false} ReadSections(sections: seq<Section>)
    ensures var read := ReadAll(START, AllLines(sections));
            && (read.Ok? ==> Sane(read.value))
            && if AllCanRead(sections)
               then Ended(read).Ok? && Closed(Ended(read).value) && Ended(read).value.edits == AllEdits(sections)
               else Ended(read).Err?
  {
    if sections != [] {
      var front, x := sections[..|sections| - 1], sections[|sections| - 1];
      assert AllCanRead(sections) <==> AllCanRead(front) && CanRead(x) by {
        assert forall i :: 0 <= i < |front| ==> front[i] == sections[i];
      }
      hide Read, Flushed, CanRead, SectionLines, SectionEdits, AllCanRead, Sane, ReadAll;
      ReadSections(front);
      ReadAllJoined(START, AllLines(front), SectionLines(x));
      var read := ReadAll(START, AllLines(front));
      if read.Ok? {
        match x {
          case AddFile(_, _) => ReadAddFile(read.value, x);
          case DeleteFile(_) => ReadDeleteFile(read.value, x);
          case UpdateFile(_, _) => ReadUpdateFile(read.value, x);
        }
      }
    }
  }

  // ----- the text -----

  predicate OneLine(l: string) {
    '\n' !in l
  }

  predicate OneLines(lines: seq<string>) {
    forall i :: 0 <= i < |lines| ==> OneLine(lines[i])
  }

  predicate PrintableHunk(h: Hunk) {
    OneLine(h.note) && forall i :: 0 <= i < |h.changes| ==> OneLine(h.changes[i].text)
  }

  /** No name and no line holds a line break. */
  predicate Printable(x: Section) {
    && OneLine(x.file)
    && (x.AddFile? ==> OneLines(x.lines))
    && (x.UpdateFile? ==> forall i :: 0 <= i < |x.hunks| ==> PrintableHunk(x.hunks[i]))
  }

  lemma {:induction false} ChangesOneLines(changes: seq<Change>)
    requires forall i :: 0 <= i < |changes| ==> OneLine(changes[i].text)
    ensures OneLines(LinesOf(changes))
  {
    if changes != [] {
      ChangesOneLines(changes[..|changes| - 1]);
    }
  }

  lemma {:induction false} HunksOneLines(hunks: seq<Hunk>)
    requires forall i :: 0 <= i < |hunks| ==> PrintableHunk(hunks[i])
    ensures OneLines(HunksLines(hunks))
  {
    if hunks != [] {
      HunksOneLines(hunks[..|hunks| - 1]);
      ChangesOneLines(hunks[|hunks| - 1].changes);
    }
  }

  lemma {:induction false} PlussedOneLines(lines: seq<string>)
    requires OneLines(lines)
    ensures OneLines(Plussed(lines))
  {
    if lines != [] {
      PlussedOneLines(lines[..|lines| - 1]);
    }
  }

  lemma SectionOneLines(x: Section)
    requires Printable(x)
    ensures OneLines(SectionLines(x))
  {
    match x {
      case AddFile(_, lines) => PlussedOneLines(lines);
      case DeleteFile(_) =>
      case UpdateFile(_, hunks) => HunksOneLines(hunks);
    }
  }

  lemma {:induction false} AllOneLines(sections: seq<Section>)
    requires forall i :: 0 <= i < |sections| ==> Printable(sections[i])
    ensures OneLines(AllLines(sections))
  {
    hide Printable, SectionLines, OneLine;
    if sections != [] {
      AllOneLines(sections[..|sections| - 1]);
      SectionOneLines(sections[|sections| - 1]);
    }
  }

  lemma {:induction false} SplitLine(l: string, rest: string)
    requires OneLine(l)
    ensures Split(l) == [l] && Split(l + "\n" + rest) == [l] + Split(rest)
  {
    var whole := l + "\n" + rest;
    if l == "" {
      assert whole[1..] == rest;
    } else {
      SplitLine(l[1..], rest);
      assert whole[1..] == l[1..] + "\n" + rest && l == [l[0]] + l[1..];
    }
  }

  lemma {:induction false} SplitJoined(lines: seq<string>)
    requires lines != [] && OneLines(lines)
    ensures Split(Join(lines)) == lines
  {
    if |lines| == 1 {
      SplitLine(lines[0], "");
    } else {
      SplitJoined(lines[1..]);
      SplitLine(lines[0], Join(lines[1..]));
    }
  }

  lemma {:induction false} NewlinesTrimmed(s: string, n: nat)
    requires s != "" && s[|s| - 1] != '\n'
    ensures TrimNewlines(s + seq(n, _ => '\n')) == s
    decreases n
  {
    if n == 0 {
      assert s + seq(0, _ => '\n') == s;
    } else {
      NewlinesTrimmed(s, n - 1);
      assert (s + seq(n, _ => '\n'))[..|s| + n - 1] == s + seq(n - 1, _ => '\n');
    }
  }

  lemma {:induction false} JoinEnds(lines: seq<string>, last: string)
    requires last != ""
    ensures Join(lines + [last]) != "" && Join(lines + [last])[|Join(lines + [last])| - 1] == last[|last| - 1]
  {
    if lines != [] {
      JoinEnds(lines[1..], last);
      assert (lines + [last])[1..] == lines[1..] + [last];
    }
  }

  lemma NothingToTrim(s: string)
    requires s != "" && !IsSpace(s[0]) && !IsSpace(s[|s| - 1])
    ensures TrimSpace(s) == s
  {}

  lemma FrameLines()
    ensures TrimSpace(BEGIN) == BEGIN && TrimSpace(END) == END && OneLine(BEGIN) && OneLine(END)
    ensures END != "" && END[|END| - 1] != '\n'
  {
    hide TrimSpace;
    NothingToTrim(BEGIN);
    NothingToTrim(END);
  }

  /** The lines between the first and the last are what is read. */
  lemma FramedIsRead(inner: seq<string>, newlines: nat)
    requires OneLines(inner)
    ensures Parsed(Join([BEGIN] + inner + [END]) + seq(newlines, _ => '\n')) ==
            match Ended(ReadAll(START, inner))
            case Err(why) => Err(why)
            case Ok(s) => if s.edits == [] then Err(ChangesNoFile) else Ok(s.edits)
  {
    hide ReadAll, TrimSpace, TrimNewlines, Split, OneLine, Join, BEGIN, END;
    var lines := [BEGIN] + inner + [END];
    FrameLines();
    SplitJoined(lines);
    JoinEnds([BEGIN] + inner, END);
    NewlinesTrimmed(Join(lines), newlines);
    assert lines[1..|lines| - 1] == inner;
  }

  /** Every printed patch comes back as its edits, in order: a whole file for each one added, its lines as they are;
      a deletion for each one deleted; and for each hunk the lines to find and the lines that take their place. It is
      refused exactly when there is no section, an update changes nothing, or a hunk has no line to find. */
  lemma PrintedIsRead(sections: seq<Section>, newlines: nat)
    requires forall i :: 0 <= i < |sections| ==> Printable(sections[i])
    ensures Parsed(Print(sections, newlines)).Ok? <==> sections != [] && AllCanRead(sections)
    ensures Parsed(Print(sections, newlines)).Ok? ==> Parsed(Print(sections, newlines)) == Ok(AllEdits(sections))
  {
    hide ReadAll, Parsed, AllLines, Printable, CanRead, Join, AllEdits;
    AllOneLines(sections);
    ReadSections(sections);
    FramedIsRead(AllLines(sections), newlines);
    if AllCanRead(sections) {
      HasEdits(sections);
    }
  }

  lemma {:induction false} AsManyEdits(file: string, hunks: seq<Hunk>)
    ensures |HunksEdits(file, hunks)| == Changing(hunks)
  {
    if hunks != [] {
      AsManyEdits(file, hunks[..|hunks| - 1]);
    }
  }

  lemma {:induction false} HasEdits(sections: seq<Section>)
    requires AllCanRead(sections)
    ensures AllEdits(sections) == [] <==> sections == []
  {
    if sections != [] {
      var x := sections[|sections| - 1];
      assert CanRead(x);
      if x.UpdateFile? {
        AsManyEdits(x.file, x.hunks);
        ChangingSome(x.hunks);
      }
      assert SectionEdits(x) != [];
    }
  }

  lemma OneUpdate(f: string, h: Hunk)
    requires OneLine(f) && PrintableHunk(h) && h.changes != [] && CanPlace(h)
    ensures AllCanRead([UpdateFile(f, [h])]) && Printable([UpdateFile(f, [h])][0])
    ensures AllEdits([UpdateFile(f, [h])]) == [Edit(f, Text(Found(h.changes)), Replacement(h.changes))]
  {
    var hunks, sections := [h], [UpdateFile(f, [h])];
    assert hunks[..0] == [] && sections[..0] == [] && hunks[0].changes != [];
    hide Found, Placed, Text, Replacement;
    assert HunksEdits(f, hunks) == HunkEdits(f, h);
    assert AllEdits(sections) == SectionEdits(sections[0]);
  }

  lemma {:induction false} TextEnds(lines: seq<string>)
    ensures Text(lines) == "" <==> lines == []
  {
    if lines != [] {
      assert |Text(lines)| >= 1;
    }
  }

  /** A hunk with lines to find, read from its patch, is one edit that finds those lines and replaces them by the
      lines that take their place, exactly when there is one: a hunk that only takes lines away is read as putting a
      line break where they were. */
  lemma EmptyReplacement(f: string, h: Hunk, newlines: nat)
    requires OneLine(f) && PrintableHunk(h) && Found(h.changes) != []
    ensures var r := Parsed(Print([UpdateFile(f, [h])], newlines));
            && r.Ok? && |r.value| == 1 && r.value[0].file == f && r.value[0].search == Text(Found(h.changes))
            && (r.value[0].replace == Text(Placed(h.changes)) <==> Placed(h.changes) != [])
            && (Placed(h.changes) == [] ==> r.value[0].replace == "\n")
  {
    OneUpdate(f, h);
    TextEnds(Placed(h.changes));
    PrintedIsRead([UpdateFile(f, [h])], newlines);
    hide Parsed, Print, Found, Placed, Text, AllCanRead, AllEdits;
  }

  lemma OneRemoval(line: string)
    ensures Found([Removed(line)]) == [line] && Placed([Removed(line)]) == []
    ensures Text([line]) == line + "\n" && Text([]) == ""
  {
    assert [Removed(line)][..0] == [];
    assert [line][1..] == [] && line + "\n" + "" == line + "\n";
  }

  /** Such a patch: it takes the line "x" out of the file "f", and is read as an edit that leaves an empty line. */
  lemma RemovalLeavesLineBreak()
    ensures var h := Hunk("", [Removed("x")], false);
            && Text(Placed(h.changes)) == ""
            && Parsed(Print([UpdateFile("f", [h])], 1)) == Ok([Edit("f", "x\n", "\n")])
  {
    hide Parsed, Print, Found, Placed, Text;
    var h := Hunk("", [Removed("x")], false);
    OneRemoval("x");
    EmptyReplacement("f", h, 1);
    var r := Parsed(Print([UpdateFile("f", [h])], 1));
    assert "x" + "\n" == "x\n" && r.value == [r.value[0]];
  }
}
