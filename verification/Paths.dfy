/** The paths a proposal names, cleaned at the trust boundary: relative, slash-separated, inside the project and
    outside .git. */
module Paths {
  import opened Wrappers
  import opened Bytes

  type Path = Bytes

  const SLASH: Byte := 47
  const DOT: Bytes := [46]
  const DOTDOT: Bytes := [46, 46]

  /** The components between the slashes. */
  function Parts(p: Path): (parts: seq<Bytes>)
    ensures parts != []
  {
    if p == [] then [[]]
    else
      var rest := Parts(p[1..]);
      if p[0] == SLASH then [[]] + rest else [[p[0]] + rest[0]] + rest[1..]
  }

  function Join(parts: seq<Bytes>): Path
    requires parts != []
  {
    if |parts| == 1 then parts[0] else parts[0] + [SLASH] + Join(parts[1..])
  }

  /** What the components come to: empty ones and "." go, and ".." takes the one before it away, where there is one. */
  function Resolve(parts: seq<Bytes>): seq<Bytes> {
    if parts == [] then []
    else
      var done, c := Resolve(parts[..|parts| - 1]), parts[|parts| - 1];
      if c == [] || c == DOT then done
      else if c == DOTDOT && done != [] && done[|done| - 1] != DOTDOT then done[..|done| - 1]
      else done + [c]
  }

  function Lower(b: Byte): Byte {
    if 65 <= b <= 90 then b + 32 else b
  }

  /** ".git" in any case. */
  predicate IsGit(part: Bytes) {
    |part| == 4 && part[0] == 46 && Lower(part[1]) == 103 && Lower(part[2]) == 105 && Lower(part[3]) == 116
  }

  /** The path that resolved components make inside the project, outside .git. */
  function Inside(parts: seq<Bytes>): Option<Path> {
    if parts == [] || parts[0] == DOTDOT || exists i :: 0 <= i < |parts| && IsGit(parts[i]) then None
    else Some(Join(parts))
  }

  /** The cleaned path; None for an empty or absolute one, one that leaves the project or is its root, and one inside
      .git. */
  function CleanPath(p: Path): Option<Path> {
    if p == [] || p[0] == SLASH then None else Inside(Resolve(Parts(p)))
  }

  predicate Plain(part: Bytes) {
    part != [] && part != DOT && part != DOTDOT
  }

  /** A path as a repository names its files. */
  predicate Canonical(p: Path) {
    forall i :: 0 <= i < |Parts(p)| ==> Plain(Parts(p)[i])
  }

  predicate InGit(p: Path) {
    exists i :: 0 <= i < |Parts(p)| && IsGit(Parts(p)[i])
  }

  predicate NoSlashes(parts: seq<Bytes>) {
    forall i :: 0 <= i < |parts| ==> SLASH !in parts[i]
  }

  lemma {:induction false} PartsHaveNoSlashes(p: Path)
    ensures NoSlashes(Parts(p))
  {
    if p != [] {
      PartsHaveNoSlashes(p[1..]);
      var rest := Parts(p[1..]);
      assert SLASH !in rest[0];
    }
  }

  lemma {:induction false} JoinOfParts(p: Path)
    ensures Join(Parts(p)) == p
  {
    if p != [] {
      JoinOfParts(p[1..]);
      var parts, rest := Parts(p), Parts(p[1..]);
      if p[0] == SLASH {
        assert parts[1..] == rest;
      } else {
        assert parts[1..] == rest[1..];
      }
    }
  }

  /** A component, and what follows it. */
  lemma {:induction false} PartsFrom(part: Bytes, p: Path)
    requires SLASH !in part
    ensures Parts(part) == [part]
    ensures Parts(part + [SLASH] + p) == [part] + Parts(p)
  {
    var whole := part + [SLASH] + p;
    if part == [] {
      assert whole[1..] == p;
    } else {
      PartsFrom(part[1..], p);
      assert part[0] in part && part == [part[0]] + part[1..];
      assert whole[1..] == part[1..] + [SLASH] + p;
    }
  }

  lemma {:induction false} PartsOfJoin(parts: seq<Bytes>)
    requires parts != [] && NoSlashes(parts)
    ensures Parts(Join(parts)) == parts
  {
    if |parts| == 1 {
      PartsFrom(parts[0], []);
    } else {
      PartsOfJoin(parts[1..]);
      PartsFrom(parts[0], Join(parts[1..]));
    }
  }

  lemma {:induction false} ResolvePlain(parts: seq<Bytes>)
    requires forall i :: 0 <= i < |parts| ==> Plain(parts[i])
    ensures Resolve(parts) == parts
  {
    if parts != [] {
      ResolvePlain(parts[..|parts| - 1]);
    }
  }

  /** Only leading components can still be "..". */
  lemma {:induction false} Resolved(parts: seq<Bytes>)
    requires NoSlashes(parts)
    ensures var r := Resolve(parts);
            && NoSlashes(r)
            && (forall i :: 0 <= i < |r| ==> r[i] != [] && r[i] != DOT)
            && (forall i :: 0 < i < |r| && r[i] == DOTDOT ==> r[i - 1] == DOTDOT)
  {
    if parts != [] {
      Resolved(parts[..|parts| - 1]);
      assert SLASH !in parts[|parts| - 1];
    }
  }

  lemma {:induction false} NoneLeaves(r: seq<Bytes>, i: nat)
    requires i < |r| && r[0] != DOTDOT && forall k :: 0 < k < |r| && r[k] == DOTDOT ==> r[k - 1] == DOTDOT
    ensures r[i] != DOTDOT
  {
    if i > 0 {
      NoneLeaves(r, i - 1);
    }
  }

  /** A path as a repository names it is cleaned to itself, and refused exactly when it is inside .git. */
  lemma CleanCanonical(p: Path)
    requires Canonical(p)
    ensures CleanPath(p) == if InGit(p) then None else Some(p)
  {
    var parts := Parts(p);
    ResolvePlain(parts);
    JoinOfParts(p);
    assert p != [] && p[0] != SLASH by {
      assert Plain(parts[0]);
    }
  }

  /** What is accepted is a path inside the project, as a repository would name it, outside .git; and cleaning it
      again changes nothing. */
  lemma CleanIsSettled(p: Path)
    requires CleanPath(p).Some?
    ensures var q := CleanPath(p).value; Canonical(q) && !InGit(q) && CleanPath(q) == Some(q)
  {
    var parts, q := Resolve(Parts(p)), CleanPath(p).value;
    PartsHaveNoSlashes(p);
    Resolved(Parts(p));
    PartsOfJoin(parts);
    forall i | 0 <= i < |parts| ensures Plain(parts[i]) {
      NoneLeaves(parts, i);
    }
    CleanCanonical(q);
  }

  /** Components are resolved from the left, each against what the ones before it come to. */
  lemma {:induction false} ResolveJoined(a: seq<Bytes>, b: seq<Bytes>)
    ensures Resolve(a + b) == Resolve(Resolve(a) + b)
  {
    if b == [] {
      assert a + b == a && Resolve(a) + b == Resolve(a);
      ResolveSettled(a);
    } else {
      var front := b[..|b| - 1];
      ResolveJoined(a, front);
      assert (a + b)[..|a + b| - 1] == a + front && (Resolve(a) + b)[..|Resolve(a) + b| - 1] == Resolve(a) + front;
    }
  }

  lemma {:induction false} ResolveSettled(a: seq<Bytes>)
    ensures Resolve(Resolve(a)) == Resolve(a)
  {
    if a != [] {
      var done, c := Resolve(a[..|a| - 1]), a[|a| - 1];
      ResolveSettled(a[..|a| - 1]);
      if c == [] || c == DOT {
      } else if c == DOTDOT && done != [] && done[|done| - 1] != DOTDOT {
        ResolvePrefix(done);
      } else {
        assert (done + [c])[..|done|] == done;
      }
    }
  }

  /** What resolves to itself does so without its last component. */
  lemma {:induction false} ResolvePrefix(done: seq<Bytes>)
    requires Resolve(done) == done && done != []
    ensures Resolve(done[..|done| - 1]) == done[..|done| - 1]
  {
    NoLonger(done[..|done| - 1]);
  }

  lemma {:induction false} NoLonger(parts: seq<Bytes>)
    ensures |Resolve(parts)| <= |parts|
  {
    if parts != [] {
      NoLonger(parts[..|parts| - 1]);
    }
  }

  lemma OneMore(a: seq<Bytes>, c: Bytes)
    ensures c == [] || c == DOT ==> Resolve(a + [c]) == Resolve(a)
    ensures Plain(c) ==> Resolve(a + [c]) == Resolve(a) + [c]
    ensures c == DOTDOT && Resolve(a) != [] && Plain(Resolve(a)[|Resolve(a)| - 1]) ==>
        Resolve(a + [c]) == Resolve(a)[..|Resolve(a)| - 1]
  {
    assert (a + [c])[..|a|] == a;
  }

  /** What the components come to does not change when an empty one, ".", or a name and ".." are put among them. */
  lemma ResolveSkips(a: seq<Bytes>, name: Bytes, b: seq<Bytes>)
    requires Plain(name)
    ensures Resolve(a + [[]] + b) == Resolve(a + b) && Resolve(a + [DOT] + b) == Resolve(a + b)
    ensures Resolve(a + [name, DOTDOT] + b) == Resolve(a + b)
  {
    OneMore(a, []);
    OneMore(a, DOT);
    OneMore(a, name);
    OneMore(a + [name], DOTDOT);
    hide Resolve, Plain;
    assert a + [name] + [DOTDOT] == a + [name, DOTDOT];
    assert (Resolve(a) + [name])[..|Resolve(a)|] == Resolve(a);
    ResolveJoined(a + [[]], b);
    ResolveJoined(a + [DOT], b);
    ResolveJoined(a + [name, DOTDOT], b);
    ResolveJoined(a, b);
  }

  /** The components of a path that is not empty and not absolute. */
  predicate Relative(parts: seq<Bytes>) {
    parts != [] && parts[0] != [] && NoSlashes(parts)
  }

  lemma CleanOfJoin(parts: seq<Bytes>)
    requires Relative(parts)
    ensures CleanPath(Join(parts)) == Inside(Resolve(parts))
  {
    PartsOfJoin(parts);
    hide Resolve, Inside, Parts;
    assert Join(parts) != [] && Join(parts)[0] == parts[0][0];
    assert parts[0][0] in parts[0];
  }

  /** What a path means: two slashes in a row are one, "." can be left out, and so can a name with the ".." after it:
      the path with them is accepted when the one without is, and cleaned to the same. */
  lemma CleanMeans(a: seq<Bytes>, name: Bytes, b: seq<Bytes>)
    requires Relative(a + b) && Plain(name) && SLASH !in name
    ensures a != [] ==> CleanPath(Join(a + [[]] + b)) == CleanPath(Join(a + b))
    ensures CleanPath(Join(a + [DOT] + b)) == CleanPath(Join(a + b))
    ensures CleanPath(Join(a + [name, DOTDOT] + b)) == CleanPath(Join(a + b))
  {
    ResolveSkips(a, name, b);
    Among(a, [DOT], b);
    Among(a, [name, DOTDOT], b);
    hide Resolve, CleanPath;
    CleanOfJoin(a + b);
    CleanOfJoin(a + [DOT] + b);
    CleanOfJoin(a + [name, DOTDOT] + b);
    if a != [] {
      Among(a, [[]], b);
      CleanOfJoin(a + [[]] + b);
    }
  }

  lemma Among(a: seq<Bytes>, some: seq<Bytes>, b: seq<Bytes>)
    requires Relative(a + b) && some != [] && NoSlashes(some) && (a == [] ==> some[0] != [])
    ensures Relative(a + some + b)
  {
    var parts := a + some + b;
    assert a != [] ==> (a + b)[0] == a[0];
    forall i | 0 <= i < |parts| ensures SLASH !in parts[i] {
      if i < |a| {
        assert parts[i] == (a + b)[i];
      } else if i >= |a| + |some| {
        assert parts[i] == (a + b)[i - |some|];
      }
    }
  }
}
