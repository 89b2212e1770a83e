/** Reading an agent's apply_patch text: the edits it stands for, or why it is refused. */
module ApplyPatch {
  import opened Wrappers

  datatype Edit = Edit(file: string, search: string, replace: string)

  datatype PatchError =
    | NotAPatch | OnlyAdded(file: string) | ChangesNothing(file: string) | Moved(file: string)
    | UnknownLine(line: string) | UnexpectedLine(line: string) | ChangesNoFile

  datatype Kind = Outside | Add | Update

  /** Between two lines: the section that is open, and its lines so far. */
  datatype State = State(edits: seq<Edit>, file: string, kind: Kind, body: seq<string>,
                         search: seq<string>, replac: seq<string>, hunks: nat)

  const NEW_FILE := "(new file)"
  const DELETE_FILE := "(delete file)"
  const BEGIN := "*** Begin Patch"
  const END := "*** End Patch"
  const ADD := "*** Add File: "
  const UPDATE := "*** Update File: "
  const DELETE := "*** Delete File: "

  // ----- the library's part -----

  predicate IsSpace(c: char) {
    var n := c as int;
    9 <= n <= 13 || n in {0x20, 0x85, 0xA0, 0x1680, 0x2028, 0x2029, 0x202F, 0x205F, 0x3000} || 0x2000 <= n <= 0x200A
  }

  function TrimSpace(s: string): string {
    if s == "" then ""
    else if IsSpace(s[0]) then TrimSpace(s[1..])
    else if IsSpace(s[|s| - 1]) then TrimSpace(s[..|s| - 1])
    else s
  }

  function TrimNewlines(s: string): string {
    if s != "" && s[|s| - 1] == '\n' then TrimNewlines(s[..|s| - 1]) else s
  }

  function Split(s: string): (lines: seq<string>)
    ensures lines != []
  {
    if s == "" then [""]
    else
      var rest := Split(s[1..]);
      if s[0] == '\n' then [""] + rest else [[s[0]] + rest[0]] + rest[1..]
  }

  function Join(lines: seq<string>): string {
    if lines == [] then "" else if |lines| == 1 then lines[0] else lines[0] + "\n" + Join(lines[1..])
  }

  // ----- what one line does -----

  /** The hunk that is open becomes an edit; nothing when it is empty. */
  function HunkFlushed(s: State): Result<State, PatchError> {
    if s.search == [] && s.replac == [] then Ok(s)
    else if s.search == [] then Err(OnlyAdded(s.file))
    else
      var e := Edit(s.file, Join(s.search) + "\n", Join(s.replac) + "\n");
      Ok(s.(edits := s.edits + [e], search := [], replac := [], hunks := s.hunks + 1))
  }

  /** The section that is open ends. */
  function Flushed(s: State): Result<State, PatchError> {
    match s.kind
    case Outside => Ok(s.(body := [], hunks := 0))
    case Add =>
      var content := if s.body == [] then "" else Join(s.body) + "\n";
      Ok(s.(edits := s.edits + [Edit(s.file, NEW_FILE, content)], kind := Outside, body := [], hunks := 0))
    case Update =>
      match HunkFlushed(s)
      case Err(why) => Err(why)
      case Ok(t) =>
        if t.hunks == 0 then Err(ChangesNothing(t.file))
        else Ok(t.(kind := Outside, body := [], hunks := 0))
  }

  function Opened(s: State, file: string, kind: Kind): Result<State, PatchError> {
    match Flushed(s)
    case Err(why) => Err(why)
    case Ok(t) => Ok(t.(file := file, kind := kind))
  }

  function Deleted(s: State, file: string): Result<State, PatchError> {
    match Flushed(s)
    case Err(why) => Err(why)
    case Ok(t) => Ok(t.(edits := t.edits + [Edit(file, DELETE_FILE, "")]))
  }

  function Read(s: State, l: string): Result<State, PatchError> {
    if ADD <= l then Opened(s, l[|ADD|..], Add)
    else if UPDATE <= l then Opened(s, l[|UPDATE|..], Update)
    else if DELETE <= l then Deleted(s, l[|DELETE|..])
    else if "*** Move to: " <= l then Err(Moved(s.file))
    else if l == "*** End of File" then Ok(s)
    else if "***" <= l then Err(UnknownLine(l))
    else if s.kind == Add && "+" <= l then Ok(s.(body := s.body + [l[1..]]))
    else if s.kind == Update && "@@" <= l then HunkFlushed(s)
    else if s.kind == Update && (" " <= l || l == "") then
      var ctx := if " " <= l then l[1..] else l;
      Ok(s.(search := s.search + [ctx], replac := s.replac + [ctx]))
    else if s.kind == Update && "-" <= l then Ok(s.(search := s.search + [l[1..]]))
    else if s.kind == Update && "+" <= l then Ok(s.(replac := s.replac + [l[1..]]))
    else Err(UnexpectedLine(l))
  }

  function ReadAll(s: State, lines: seq<string>): Result<State, PatchError> {
    if lines == [] then Ok(s)
    else
      match ReadAll(s, lines[..|lines| - 1])
      case Err(why) => Err(why)
      case Ok(t) => Read(t, lines[|lines| - 1])
  }

  const START := State([], "", Outside, [], [], [], 0)

  predicate Framed(lines: seq<string>) {
    |lines| >= 2 && TrimSpace(lines[0]) == BEGIN && TrimSpace(lines[|lines| - 1]) == END
  }

  /** The edits the lines between the first and the last stand for. */
  function Ended(r: Result<State, PatchError>): Result<State, PatchError> {
    match r
    case Err(why) => Err(why)
    case Ok(s) => Flushed(s)
  }

  function Parsed(patch: string): Result<seq<Edit>, PatchError> {
    var lines := Split(TrimNewlines(patch));
    if !Framed(lines) then Err(NotAPatch)
    else
      match Ended(ReadAll(START, lines[1..|lines| - 1]))
      case Err(why) => Err(why)
      case Ok(s) => if s.edits == [] then Err(ChangesNoFile) else Ok(s.edits)
  }

  // ----- the parser -----

  class Parser {
    var edits: seq<Edit>
    var file: string
    var kind: Kind
    var body: seq<string>
    var search: seq<string>
    var replac: seq<string>
    var hunks: nat

    ghost function Now(): State
      reads this
    {
      State(edits, file, kind, body, search, replac, hunks)
    }

    constructor ()
      ensures Now() == START
    {
      edits, file, kind, body, search, replac, hunks := [], "", Outside, [], [], [], 0;
    }

    method FlushHunk() returns (err: Option<PatchError>)
      modifies this
      ensures HunkFlushed(old(Now())) == if err.None? then Ok(Now()) else Err(err.value)
    {
      if |search| == 0 && |replac| == 0 {
        return None;
      }
      if |search| == 0 {
        return Some(OnlyAdded(file));
      }
      edits := edits + [Edit(file, Join(search) + "\n", Join(replac) + "\n")];
      search, replac := [], [];
      hunks := hunks + 1;
      return None;
    }

    method Flush() returns (err: Option<PatchError>)
      modifies this
      ensures Flushed(old(Now())) == if err.None? then Ok(Now()) else Err(err.value)
    {
      match kind {
        case Outside =>
        case Add =>
          var content := "";
          if |body| > 0 {
            content := Join(body) + "\n";
          }
          edits := edits + [Edit(file, NEW_FILE, content)];
        case Update =>
          var why := FlushHunk();
          if why.Some? {
            return why;
          }
          if hunks == 0 {
            return Some(ChangesNothing(file));
          }
      }
      kind, body, hunks := Outside, [], 0;
      return None;
    }

    /** A header line: the section before it ends, and one of this kind begins. */
    method Open(name: string, next: Kind) returns (err: Option<PatchError>)
      modifies this
      ensures Opened(old(Now()), name, next) == if err.None? then Ok(Now()) else Err(err.value)
    {
      hide Flushed;
      err := Flush();
      if err.None? {
        file, kind := name, next;
      }
    }

    method Line(l: string) returns (err: Option<PatchError>)
      modifies this
      ensures Read(old(Now()), l) == if err.None? then Ok(Now()) else Err(err.value)
    {
      hide Opened, Flushed, HunkFlushed;
      if ADD <= l {
        err := Open(l[|ADD|..], Add);
      } else if UPDATE <= l {
        err := Open(l[|UPDATE|..], Update);
      } else if DELETE <= l {
        err := Flush();
        if err.None? {
          edits := edits + [Edit(l[|DELETE|..], DELETE_FILE, "")];
        }
      } else if "*** Move to: " <= l {
        err := Some(Moved(file));
      } else if l == "*** End of File" {
        err := None;
      } else if "***" <= l {
        err := Some(UnknownLine(l));
      } else if kind == Add && "+" <= l {
        body, err := body + [l[1..]], None;
      } else if kind == Update && "@@" <= l {
        err := FlushHunk();
      } else if kind == Update && (" " <= l || l == "") {
        var ctx := if " " <= l then l[1..] else l;
        search, replac, err := search + [ctx], replac + [ctx], None;
      } else if kind == Update && "-" <= l {
        search, err := search + [l[1..]], None;
      } else if kind == Update && "+" <= l {
        replac, err := replac + [l[1..]], None;
      } else {
        err := Some(UnexpectedLine(l));
      }
    }
  }

  /** The edits a patch stands for. */
  method ParsePatch(patch: string) returns (r: Result<seq<Edit>, PatchError>)
    ensures r == Parsed(patch)
  {
    hide Read, Flushed, TrimNewlines, Split;
    var lines := Split(TrimNewlines(patch));
    if |lines| < 2 || TrimSpace(lines[0]) != BEGIN || TrimSpace(lines[|lines| - 1]) != END {
      return Err(NotAPatch);
    }
    var inner := lines[1..|lines| - 1];
    var p := new Parser();
    for i := 0 to |inner|
      invariant fresh(p) && ReadAll(START, inner[..i]) == Ok(p.Now())
    {
      assert inner[..i + 1][..i] == inner[..i];
      var err := p.Line(inner[i]);
      if err.Some? {
        assert ReadAll(START, inner[..i + 1]) == Err(err.value);
        ErrorStays(START, inner, i + 1);
        return Err(err.value);
      }
    }
    assert inner[..|inner|] == inner;
    var err := p.Flush();
    if err.Some? {
      return Err(err.value);
    }
    if |p.edits| == 0 {
      return Err(ChangesNoFile);
    }
    return Ok(p.edits);
  }

  lemma {:induction false} ErrorStays(s: State, lines: seq<string>, i: nat)
    requires i <= |lines| && ReadAll(s, lines[..i]).Err?
    ensures ReadAll(s, lines) == ReadAll(s, lines[..i])
    decreases |lines|
  {
    hide Read;
    if i < |lines| {
      assert lines[..|lines| - 1][..i] == lines[..i];
      ErrorStays(s, lines[..|lines| - 1], i);
    } else {
      assert lines[..i] == lines;
    }
  }
}
