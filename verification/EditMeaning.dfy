/** What an edit means, line by line, whatever line breaks its file has. */
module EditMeaning {
  import opened Wrappers
  import opened Bytes
  import opened Newlines

  /** The block's lines ended by LF, and by CRLF. */
  function Unix(b: Bytes): Bytes {
    ReplaceAll(b, CRLF, [LF])
  }

  function Dos(b: Bytes): Bytes {
    ReplaceAll(b, [LF], CRLF)
  }

  /** b with the replacement at the first place where the search block is; None when it is nowhere. */
  function Replaced(b: Bytes, search: Bytes, replace: Bytes): Option<Bytes> {
    match Find(b, search)
    case None => None
    case Some(i) => Some(b[..i] + replace + b[i + |search|..])
  }

  lemma DosFirst(b: Bytes)
    requires b != []
    ensures Dos(b) == (if b[0] == LF then CRLF else [b[0]]) + Dos(b[1..])
  {
    assert b[..1] == [b[0]];
  }

  lemma {:induction false} DosJoin(a: Bytes, b: Bytes)
    ensures Dos(a + b) == Dos(a) + Dos(b)
  {
    if a == [] {
      assert a + b == b;
    } else {
      DosJoin(a[1..], b);
      DosFirst(a);
      DosFirst(a + b);
      assert (a + b)[1..] == a[1..] + b;
      hide Dos;
    }
  }

  lemma {:induction false} UnixOfDos(b: Bytes)
    requires CR !in b
    ensures Unix(Dos(b)) == b
  {
    if b != [] {
      UnixOfDos(b[1..]);
      DosFirst(b);
      var rest := Dos(b[1..]);
      if b[0] == LF {
        assert Dos(b)[..2] == CRLF && Dos(b)[2..] == rest;
      } else {
        assert Dos(b)[0] == b[0] && b[0] in b && Dos(b)[1..] == rest;
        assert |Dos(b)| < 2 ==> rest == [];
        assert |Dos(b)| >= 2 ==> Dos(b)[..2][0] != CRLF[0];
      }
    }
  }

  lemma {:induction false} DosOfUnix(b: Bytes)
    requires Pairs(b)
    ensures CR !in Unix(b) && Dos(Unix(b)) == b
  {
    if b == [] {
    } else if b[0] == CR {
      DosOfUnix(b[2..]);
      assert b[..2] == CRLF;
      DosFirst(Unix(b));
      assert Unix(b)[1..] == Unix(b[2..]);
    } else {
      DosOfUnix(b[1..]);
      assert |b| >= 2 ==> b[..2][0] != CRLF[0];
      assert Unix(b) == [b[0]] + Unix(b[1..]) by {
        assert |b| < 2 ==> b[1..] == [];
      }
      DosFirst(Unix(b));
      assert Unix(b)[1..] == Unix(b[1..]);
    }
  }

  lemma {:induction false} DosPrefix(s: Bytes, b: Bytes)
    requires CR !in s && CR !in b
    ensures s <= b <==> Dos(s) <= Dos(b)
  {
    if s != [] && b != [] {
      DosPrefix(s[1..], b[1..]);
      DosFirst(s);
      DosFirst(b);
      hide Dos;
      PrefixByFirst(s, b);
      var x, y := if s[0] == LF then CRLF else [s[0]], if b[0] == LF then CRLF else [b[0]];
      assert s[0] in s && b[0] in b;
      if s[0] == b[0] {
        assert (x + Dos(s[1..]))[|x|..] == Dos(s[1..]) && (y + Dos(b[1..]))[|y|..] == Dos(b[1..]);
        assert x + Dos(s[1..]) <= x + Dos(b[1..]) <==> Dos(s[1..]) <= Dos(b[1..]) by {
          PrefixCancels(x, Dos(s[1..]), Dos(b[1..]));
        }
      } else {
        assert (x + Dos(s[1..]))[0] == x[0] && (y + Dos(b[1..]))[0] == y[0] && x[0] != y[0];
      }
    } else if s != [] {
      DosFirst(s);
    }
  }

  lemma PrefixByFirst(s: Bytes, b: Bytes)
    requires s != [] && b != []
    ensures s <= b <==> s[0] == b[0] && s[1..] <= b[1..]
  {
    if s[0] == b[0] && s[1..] <= b[1..] {
      assert s == [s[0]] + s[1..] && b == [b[0]] + b[1..];
    }
  }

  lemma PrefixCancels(x: Bytes, a: Bytes, b: Bytes)
    ensures x + a <= x + b <==> a <= b
  {
    if |a| <= |b| {
      assert (x + b)[..|x| + |a|] == x + b[..|a|];
      assert (x + a)[|x|..] == a && (x + b[..|a|])[|x|..] == b[..|a|];
    }
  }

  lemma DosEmpty(b: Bytes)
    ensures Dos(b) == [] <==> b == []
  {
    if b != [] {
      DosFirst(b);
    }
  }

  lemma FindBounds(b: Bytes, s: Bytes)
    ensures Find(b, s).Some? ==> var i := Find(b, s).value; i + |s| <= |b| && b[i..i + |s|] == s
  {}

  /** The first occurrence, with CRLF line breaks, is where the first with LF line breaks is. */
  lemma {:induction false} DosFind(b: Bytes, s: Bytes)
    requires CR !in s && CR !in b
    ensures Find(b, s).None? <==> Find(Dos(b), Dos(s)).None?
    ensures Find(b, s).Some? ==> Find(Dos(b), Dos(s)) == Some(|Dos(b[..Find(b, s).value])|)
  {
    hide Dos, OccursAt;
    DosPrefix(s, b);
    DosEmpty(b);
    if s <= b {
      assert b[..0] == [];
      DosEmpty(b[..0]);
    } else if b != [] {
      DosFind(b[1..], s);
      DosFirst(b);
      FindLater(b, s);
      if Find(b[1..], s).Some? {
        FindBounds(b[1..], s);
        var i := Find(b[1..], s).value;
        assert b[..i + 1] == [b[0]] + b[1..][..i];
        DosJoin([b[0]], b[1..][..i]);
        DosOne(b[0]);
      }
    }
  }

  /** Where the text does not start with the search block, the search goes on after its first line break or byte. */
  lemma FindLater(b: Bytes, s: Bytes)
    requires b != [] && s != [] && !(Dos(s) <= Dos(b))
    ensures var rest, n := Find(Dos(b[1..]), Dos(s)), if b[0] == LF then 2 else 1;
            Find(Dos(b), Dos(s)) == if rest.None? then None else Some(rest.value + n)
  {
    hide Dos, OccursAt;
    DosFirst(b);
    var rest := Dos(b[1..]);
    if b[0] == LF {
      assert Dos(b)[1..] == [LF] + rest && ([LF] + rest)[1..] == rest;
      NoLFFirst(s, [LF] + rest);
    } else {
      assert Dos(b)[1..] == rest;
    }
  }

  lemma DosOne(x: Byte)
    ensures Dos([x]) == if x == LF then CRLF else [x]
  {
    DosFirst([x]);
  }

  lemma NoLFFirst(s: Bytes, b: Bytes)
    requires s != [] && b != [] && b[0] == LF
    ensures !(Dos(s) <= b)
  {
    DosFirst(s);
  }

  /** Read with universal newlines, every edit is the plain one: the first place its search block occurs, replaced by
      its replace block. With the line breaks the edit keeps, that is all there is to its content. No block holds a
      lone CR. */
  lemma EditIsPlain(content: Bytes, search: Bytes, replace: Bytes)
    requires !LoneCR(search) && !LoneCR(replace)
    ensures var plain := Replaced(UniversalNewlines(content), Unix(search), Unix(replace));
            var edit := EditContent(content, search, replace);
            && (edit.None? <==> plain.None?)
            && (edit.Some? ==> plain == Some(UniversalNewlines(edit.value)))
  {
    hide Count, Pairs, ReplaceAll, Find, LoneCR, Paired;
    UnixBlock(search);
    UnixBlock(replace);
    if AllCRLF(content) {
      AllPaired(content);
      DosOfUnix(content);
      PlainDos(Unix(content), Unix(search), Unix(replace));
    } else {
      AllCRLFIsPaired(content);
      NoCRLeft(Unix(content));
      if CR !in content {
        UniversalPlain(content);
      }
      PlainUnix(UniversalNewlines(content), Unix(search), Unix(replace));
    }
  }

  lemma AllPaired(content: Bytes)
    requires AllCRLF(content)
    ensures Pairs(content) && CR in content
  {
    CountsBound(content);
  }

  /** A text without CR reads as itself. */
  lemma {:induction false} UniversalPlain(b: Bytes)
    requires CR !in b
    ensures UniversalNewlines(b) == b
  {
    NothingToReplace(b, CRLF, [LF]);
    NothingToReplace(b, [CR], [LF]);
  }

  lemma {:induction false} NothingToReplace(b: Bytes, s: Bytes, t: Bytes)
    requires s != [] && s[0] == CR && CR !in b
    ensures ReplaceAll(b, s, t) == b
  {
    if |b| >= |s| {
      assert b[..|s|][0] == b[0] && b[0] in b;
      NothingToReplace(b[1..], s, t);
    }
  }

  lemma PlainUnix(b: Bytes, s: Bytes, r: Bytes)
    requires CR !in b && CR !in r
    ensures Replaced(b, s, r).Some? ==> UniversalNewlines(Replaced(b, s, r).value) == Replaced(b, s, r).value
  {
    if Replaced(b, s, r).Some? {
      UniversalPlain(Replaced(b, s, r).value);
    }
  }

  /** The edit of a file whose line breaks are CRLF is the plain edit of its lines, with CRLF again. */
  lemma PlainDos(b: Bytes, s: Bytes, r: Bytes)
    requires CR !in b && CR !in s && CR !in r
    ensures Replaced(Dos(b), Dos(s), Dos(r)).None? <==> Replaced(b, s, r).None?
    ensures Replaced(b, s, r).Some? ==>
              && Replaced(Dos(b), Dos(s), Dos(r)) == Some(Dos(Replaced(b, s, r).value))
              && UniversalNewlines(Dos(Replaced(b, s, r).value)) == Replaced(b, s, r).value
    ensures UniversalNewlines(Dos(b)) == b
  {
    hide Dos, Find, ReplaceAll, OccursAt;
    DosFind(b, s);
    UnixOfDos(b);
    NothingToReplace(b, [CR], [LF]);
    FindBounds(b, s);
    if Find(b, s).Some? {
      var i := Find(b, s).value;
      var out := b[..i] + r + b[i + |s|..];
      assert b == b[..i] + (s + b[i + |s|..]);
      DosJoin(b[..i], s + b[i + |s|..]);
      DosJoin(s, b[i + |s|..]);
      DosJoin(b[..i] + r, b[i + |s|..]);
      DosJoin(b[..i], r);
      var d, k := Dos(b), |Dos(b[..i])|;
      assert d[..k] == Dos(b[..i]) && d[k + |Dos(s)|..] == Dos(b[i + |s|..]);
      assert CR !in out;
      UnixOfDos(out);
      NothingToReplace(out, [CR], [LF]);
    }
  }
}
