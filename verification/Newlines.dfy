/** Line breaks: an approved edit keeps its file's convention. */
module Newlines {
  import opened Wrappers
  import opened Bytes

  const CR: Byte := 13
  const LF: Byte := 10
  const CRLF: Bytes := [CR, LF]

  /** b has line breaks, and CR and LF occur in it only as CRLF. */
  predicate AllCRLF(b: Bytes) {
    var n := Count(b, CRLF);
    n > 0 && Count(b, [CR]) == n && Count(b, [LF]) == n
  }

  function UniversalNewlines(b: Bytes): Bytes {
    ReplaceAll(ReplaceAll(b, CRLF, [LF]), [CR], [LF])
  }

  /** The three texts to compare: both blocks with LF, or with CRLF when that is all the content has; and content that
      mixes the two with LF. */
  function Aligned(content: Bytes, search: Bytes, replace: Bytes): (Bytes, Bytes, Bytes) {
    var s, r := ReplaceAll(search, CRLF, [LF]), ReplaceAll(replace, CRLF, [LF]);
    if CR !in content then (content, s, r)
    else if AllCRLF(content) then (content, ReplaceAll(s, [LF], CRLF), ReplaceAll(r, [LF], CRLF))
    else (UniversalNewlines(content), s, r)
  }

  /** The content after the edit; None when the search block is not in it. */
  function EditContent(content: Bytes, search: Bytes, replace: Bytes): Option<Bytes> {
    var (src, s, r) := Aligned(content, search, replace);
    match Find(src, s)
    case None => None
    case Some(i) => Some(src[..i] + r + src[i + |s|..])
  }

  // ----- what the counts say -----

  predicate PairedAt(b: Bytes, i: nat)
    requires i < |b|
  {
    && (b[i] == CR ==> i + 1 < |b| && b[i + 1] == LF)
    && (b[i] == LF ==> i > 0 && b[i - 1] == CR)
  }

  /** Each CR is followed by an LF and each LF preceded by a CR. */
  ghost predicate Paired(b: Bytes) {
    forall i :: 0 <= i < |b| ==> PairedAt(b, i)
  }

  /** A CR that no LF follows. */
  ghost predicate LoneCR(b: Bytes) {
    exists i :: 0 <= i < |b| && b[i] == CR && (i + 1 == |b| || b[i + 1] != LF)
  }

  /** Paired, read from the front. */
  predicate Pairs(b: Bytes) {
    if b == [] then true
    else if b[0] == CR then |b| > 1 && b[1] == LF && Pairs(b[2..])
    else b[0] != LF && Pairs(b[1..])
  }

  lemma {:induction false} PairsArePaired(b: Bytes)
    ensures Pairs(b) <==> Paired(b)
  {
    if b == [] {
    } else if b[0] == CR {
      assert PairedAt(b, 0) <==> |b| > 1 && b[1] == LF;
      if |b| > 1 && b[1] == LF {
        PairsArePaired(b[2..]);
        ShiftPaired(b, 2);
        assert PairedAt(b, 1);
      }
    } else {
      PairsArePaired(b[1..]);
      assert PairedAt(b, 0) <==> b[0] != LF;
      ShiftPaired(b, 1);
    }
  }

  lemma ShiftPaired(b: Bytes, k: nat)
    requires 1 <= k <= |b| && b[k - 1] != CR
    ensures Paired(b) <==> Paired(b[k..]) && forall i :: 0 <= i < k ==> PairedAt(b, i)
  {
    forall i | k <= i < |b| ensures PairedAt(b, i) <==> PairedAt(b[k..], i - k) {
      assert b[k..][i - k] == b[i];
    }
    if Paired(b) {
      forall i | 0 <= i < |b| - k ensures PairedAt(b[k..], i) {
        assert PairedAt(b, k + i);
      }
    }
  }

  lemma {:induction false} CountsBound(b: Bytes)
    ensures Count(b, CRLF) <= Count(b, [CR]) && Count(b, CRLF) <= Count(b, [LF])
    ensures Pairs(b) <==> Count(b, CRLF) == Count(b, [CR]) == Count(b, [LF])
    ensures Count(b, [CR]) > 0 <==> CR in b
  {
    if b == [] {
    } else if |b| > 1 && b[..2] == CRLF {
      CountsBound(b[2..]);
      assert b[0] == CR && b[1] == LF && b[..1] == [CR] && b[1..][..1] == [LF] && b[1..][1..] == b[2..];
    } else {
      CountsBound(b[1..]);
      assert b[..1] == [b[0]] && b == [b[0]] + b[1..];
      assert |b| == 1 ==> b[1..] == [];
    }
  }

  /** Counting says just that: every CR is followed by an LF, every LF preceded by a CR, and there is one. */
  lemma AllCRLFIsPaired(b: Bytes)
    ensures AllCRLF(b) <==> CR in b && Paired(b)
  {
    CountsBound(b);
    PairsArePaired(b);
  }

  // ----- what the replacements leave -----

  lemma {:induction false} UnixBlock(b: Bytes)
    ensures CR in ReplaceAll(b, CRLF, [LF]) <==> LoneCR(b)
  {
    if |b| < 2 {
      assert b != [] && b[0] == CR ==> LoneCR(b);
    } else if b[..2] == CRLF {
      UnixBlock(b[2..]);
      assert b[0] == CR && b[1] == LF;
      ShiftLone(b, 2);
    } else {
      UnixBlock(b[1..]);
      if b[0] == CR {
        assert b[1] != LF;
        assert LoneCR(b);
      } else {
        ShiftLone(b, 1);
      }
    }
  }

  lemma ShiftLone(b: Bytes, k: nat)
    requires k <= |b| && forall i :: 0 <= i < k && b[i] == CR ==> i + 1 < |b| && b[i + 1] == LF
    ensures LoneCR(b) <==> LoneCR(b[k..])
  {
    if LoneCR(b) {
      var i :| 0 <= i < |b| && b[i] == CR && (i + 1 == |b| || b[i + 1] != LF);
      assert i >= k && b[k..][i - k] == CR;
    }
    if LoneCR(b[k..]) {
      var i :| 0 <= i < |b| - k && b[k..][i] == CR && (i + 1 == |b| - k || b[k..][i + 1] != LF);
      assert b[k + i] == CR;
    }
  }

  lemma {:induction false} NoCRLeft(b: Bytes)
    ensures CR !in ReplaceAll(b, [CR], [LF])
  {
    if b != [] {
      NoCRLeft(b[1..]);
      assert b[..1] == [b[0]];
    }
  }

  lemma {:induction false} DosBlock(b: Bytes)
    ensures var d := ReplaceAll(b, [LF], CRLF);
            && (d != [] ==> d[0] != LF)
            && (Pairs(d) <==> CR !in b)
  {
    if b != [] {
      DosBlock(b[1..]);
      DosFront(b);
    }
  }

  /** What is read of a block's CRLF form once its first byte is. */
  lemma DosFront(b: Bytes)
    requires b != []
    ensures var d, rest := ReplaceAll(b, [LF], CRLF), ReplaceAll(b[1..], [LF], CRLF);
            if b[0] == LF then d[0] == CR && |d| > 1 && d[1] == LF && d[2..] == rest
            else d != [] && d[0] == b[0] && d[1..] == rest
  {
    assert b[..1] == [b[0]];
  }

  /** The one lone CR of b is its last byte. */
  ghost predicate LoneCRLast(b: Bytes) {
    b != [] && b[|b| - 1] == CR && !LoneCR(b[..|b| - 1])
  }

  /** With an LF after it, a block's CRLF form is paired exactly when the one CR of the block is its last byte. */
  lemma {:induction false} DosBlockThenLF(b: Bytes)
    ensures Pairs(ReplaceAll(b, [LF], CRLF) + [LF]) <==> b != [] && b[|b| - 1] == CR && CR !in b[..|b| - 1]
  {
    if b != [] {
      var d, rest := ReplaceAll(b, [LF], CRLF), ReplaceAll(b[1..], [LF], CRLF);
      DosFront(b);
      DosBlock(b[1..]);
      DosBlockThenLF(b[1..]);
      if |b| > 1 {
        assert b[..|b| - 1] == [b[0]] + b[1..][..|b| - 2];
      }
      hide Pairs;
      ThenLF(d, rest, b[0]);
      if rest == [] {
        RestIsNone(b);
      }
    }
  }

  lemma RestIsNone(b: Bytes)
    requires b != [] && ReplaceAll(b[1..], [LF], CRLF) == []
    ensures |b| == 1
  {
    if |b| > 1 {
      DosFront(b[1..]);
    }
  }

  lemma ThenLF(d: Bytes, rest: Bytes, first: Byte)
    requires rest == [] || rest[0] != LF
    requires if first == LF then |d| > 1 && d[0] == CR && d[1] == LF && d[2..] == rest
             else d != [] && d[0] == first && d[1..] == rest
    ensures Pairs(d + [LF]) <==> if first == CR then rest == [] else Pairs(rest + [LF])
  {
    if first == LF {
      assert (d + [LF])[2..] == rest + [LF];
    } else {
      assert (d + [LF])[1..] == rest + [LF];
    }
  }

  lemma {:induction false} UnixBlockEnd(b: Bytes)
    ensures var u := ReplaceAll(b, CRLF, [LF]);
            u != [] && u[|u| - 1] == CR && CR !in u[..|u| - 1] <==> LoneCRLast(b)
  {
    var u := ReplaceAll(b, CRLF, [LF]);
    UnixBlock(b);
    if b == [] {
    } else if b[|b| - 1] == CR {
      var front := b[..|b| - 1];
      UnixBlock(front);
      UnixJoin(front);
      assert front + [CR] == b;
      assert u[..|u| - 1] == ReplaceAll(front, CRLF, [LF]);
    } else {
      UnixEnd(b);
    }
  }

  lemma {:induction false} UnixJoin(b: Bytes)
    ensures ReplaceAll(b + [CR], CRLF, [LF]) == ReplaceAll(b, CRLF, [LF]) + [CR]
  {
    if b == [] {
    } else if |b| > 1 && b[..2] == CRLF {
      UnixJoin(b[2..]);
      assert (b + [CR])[..2] == CRLF && (b + [CR])[2..] == b[2..] + [CR];
    } else {
      UnixJoin(b[1..]);
      assert (b + [CR])[1..] == b[1..] + [CR];
      assert |b| > 1 ==> (b + [CR])[..2] == b[..2];
      assert |b| == 1 ==> (b + [CR])[1] == CR;
    }
  }

  lemma {:induction false} UnixEnd(b: Bytes)
    requires b != [] && b[|b| - 1] != CR
    ensures var u := ReplaceAll(b, CRLF, [LF]);
            u != [] && u[|u| - 1] != CR
  {
    if |b| > 1 && b[..2] == CRLF {
      if |b| > 2 {
        UnixEnd(b[2..]);
      }
    } else if |b| > 1 {
      UnixEnd(b[1..]);
    }
  }

  // ----- joining and cutting -----

  lemma {:induction false} PairsJoin(a: Bytes, b: Bytes)
    requires Pairs(a)
    ensures Pairs(a + b) <==> Pairs(b)
  {
    if a == [] {
      assert a + b == b;
    } else if a[0] == CR {
      PairsJoin(a[2..], b);
      assert (a + b)[2..] == a[2..] + b;
    } else {
      PairsJoin(a[1..], b);
      assert (a + b)[1..] == a[1..] + b;
    }
  }

  lemma {:induction false} PairsCut(a: Bytes, b: Bytes)
    requires Pairs(a + b) && (b == [] || b[0] != LF)
    ensures Pairs(a) && Pairs(b)
  {
    if a == [] {
      assert a + b == b;
    } else if a[0] == CR {
      assert |a| > 1 && a[1] == LF;
      assert (a + b)[2..] == a[2..] + b;
      PairsCut(a[2..], b);
    } else {
      assert (a + b)[1..] == a[1..] + b;
      PairsCut(a[1..], b);
    }
  }

  lemma StartsLine(s: Bytes)
    requires Pairs(s) && s != []
    ensures s[0] != LF
  {}

  /** Where a block is cut out of paired content between line breaks, what is put in its place must be paired. */
  lemma SplicePairs(x: Bytes, s: Bytes, r: Bytes, y: Bytes)
    requires Pairs(x + (s + y)) && (s + y == [] || (s + y)[0] != LF) && (y == [] || y[0] != LF)
    ensures Pairs(x + (r + y)) <==> Pairs(r)
  {
    hide Pairs;
    PairsCut(x, s + y);
    PairsCut(s, y);
    PairsJoin(x, r + y);
    if Pairs(r) {
      PairsJoin(r, y);
    }
    if Pairs(r + y) {
      PairsCut(r, y);
    }
  }

  /** A block that is not paired is found in paired content only where an LF follows it, and no other after that. */
  lemma LFFollows(x: Bytes, s: Bytes, y: Bytes)
    requires Pairs(x + (s + y)) && s != [] && s[0] != LF && !Pairs(s)
    ensures y != [] && y[0] == LF && (|y| > 1 ==> y[1] != LF)
  {
    assert (s + y)[0] == s[0];
    PairsCut(x, s + y);
    if y == [] || y[0] != LF {
      PairsCut(s, y);
    }
    hide Pairs;
    PairsArePaired(s + y);
    if |y| > 1 {
      assert PairedAt(s + y, |s| + 1) && (s + y)[|s|] == LF && (s + y)[|s| + 1] == y[1];
    }
  }

  /** The replacement of a block in content that is paired, block and replacement in CRLF form. */
  lemma SpliceDos(src: Bytes, s: Bytes, r: Bytes, i: nat)
    requires Pairs(src) && OccursAt(src, s, i) && (s == [] ==> i == 0) && (s != [] ==> s[0] != LF)
    ensures Pairs(src[..i] + r + src[i + |s|..]) <==> Pairs(if Pairs(s) then r else r + [LF])
  {
    var x, y := src[..i], src[i + |s|..];
    assert src == x + (s + y) && x + r + y == x + (r + y);
    if Pairs(s) {
      if s == [] {
        assert s + y == src && y == src;
      } else {
        PairsCut(x, s + y);
        PairsJoin(s, y);
      }
      if src != [] {
        StartsLine(src);
      }
      if y != [] {
        StartsLine(y);
      }
      SplicePairs(x, s, r, y);
    } else {
      LFFollows(x, s, y);
      var y' := y[1..];
      assert s + y == (s + [LF]) + y' && r + y == (r + [LF]) + y';
      assert ((s + [LF]) + y')[0] == s[0];
      hide Pairs;
      SplicePairs(x, s + [LF], r + [LF], y');
    }
  }

  /** The blocks in CRLF form, spliced. */
  lemma SpliceBlocks(src: Bytes, search: Bytes, replace: Bytes, s: Bytes, r: Bytes, i: nat)
    requires s == ReplaceAll(ReplaceAll(search, CRLF, [LF]), [LF], CRLF)
    requires r == ReplaceAll(ReplaceAll(replace, CRLF, [LF]), [LF], CRLF)
    requires Pairs(src) && OccursAt(src, s, i) && (s == [] ==> i == 0)
    ensures Paired(src[..i] + r + src[i + |s|..]) <==>
        if LoneCR(search) then LoneCRLast(replace) else !LoneCR(replace)
  {
    hide Pairs, LoneCR, LoneCRLast, Paired, ReplaceAll;
    UnixBlock(search);
    UnixBlock(replace);
    UnixBlockEnd(replace);
    DosBlock(ReplaceAll(search, CRLF, [LF]));
    DosBlock(ReplaceAll(replace, CRLF, [LF]));
    DosBlockThenLF(ReplaceAll(replace, CRLF, [LF]));
    SpliceDos(src, s, r, i);
    PairsArePaired(src[..i] + r + src[i + |s|..]);
  }

  lemma SpliceKeepsLF(src: Bytes, s: Bytes, r: Bytes, i: nat)
    requires CR !in src && OccursAt(src, s, i)
    ensures CR in src[..i] + r + src[i + |s|..] <==> CR in r
  {}

  lemma DosEdit(content: Bytes, search: Bytes, replace: Bytes)
    requires AllCRLF(content) && EditContent(content, search, replace).Some?
    ensures Paired(EditContent(content, search, replace).value) <==>
        if LoneCR(search) then LoneCRLast(replace) else !LoneCR(replace)
  {
    DosContent(content);
    var (src, s, r) := Aligned(content, search, replace);
    hide Pairs, LoneCR, LoneCRLast, Paired, ReplaceAll, Find, AllCRLF;
    FoundAtStart(src, s);
    SpliceBlocks(src, search, replace, s, r, Find(src, s).value);
  }

  lemma OtherEdit(content: Bytes, search: Bytes, replace: Bytes)
    requires !AllCRLF(content) && EditContent(content, search, replace).Some?
    ensures CR in EditContent(content, search, replace).value <==> LoneCR(replace)
  {
    hide LoneCR, ReplaceAll, Find, AllCRLF;
    UnixBlock(replace);
    NoCRLeft(ReplaceAll(content, CRLF, [LF]));
    var (src, s, r) := Aligned(content, search, replace);
    SpliceKeepsLF(src, s, r, Find(src, s).value);
  }

  /** An edit keeps its file's line breaks. A file without CR stays without, and one of both kinds comes out with LF
      only, exactly when the replace block holds no lone CR; a file whose line breaks are all CRLF keeps every one of
      them paired exactly then too, unless the search block holds a lone CR and so matches up to the middle of a line
      break: then the replace block must end in one, and hold no other. */
  lemma EditKeepsLineBreaks(content: Bytes, search: Bytes, replace: Bytes)
    requires EditContent(content, search, replace).Some?
    ensures var out := EditContent(content, search, replace).value;
            && (!AllCRLF(content) ==> (CR !in out <==> !LoneCR(replace)))
            && (AllCRLF(content) ==>
                  (Paired(out) <==> if LoneCR(search) then LoneCRLast(replace) else !LoneCR(replace)))
  {
    hide EditContent, AllCRLF;
    if AllCRLF(content) {
      DosEdit(content, search, replace);
    } else {
      OtherEdit(content, search, replace);
    }
  }

  lemma DosContent(b: Bytes)
    requires AllCRLF(b)
    ensures CR in b && Pairs(b)
  {
    CountsBound(b);
  }

  lemma FoundAtStart(b: Bytes, s: Bytes)
    requires Find(b, s).Some?
    ensures s == [] ==> Find(b, s) == Some(0)
  {
    assert s == [] ==> OccursAt(b, s, 0);
  }

  /** An edit in the middle of a line break: "a" and CR replaced by "b" and CR, in a file of "a" and CRLF. */
  lemma MidBreakEdit()
    ensures var content: Bytes, replace: Bytes := [97, CR, LF], [98, CR];
            && EditContent(content, [97, CR], replace) == Some([98, CR, LF])
            && AllCRLF(content) && LoneCR(replace) && Paired([98, CR, LF])
  {
    var content: Bytes, search: Bytes, replace: Bytes, out: Bytes := [97, CR, LF], [97, CR], [98, CR], [98, CR, LF];
    assert content[1..][1..] == [LF] && out[1..][1..] == [LF];
    PairsArePaired(content);
    PairsArePaired(out);
    AllCRLFIsPaired(content);
    assert replace[1] == CR;
    NoBreaks(search, CRLF, [LF]);
    NoBreaks(search, [LF], CRLF);
    NoBreaks(replace, CRLF, [LF]);
    NoBreaks(replace, [LF], CRLF);
    hide ReplaceAll, Pairs, Paired, AllCRLF, LoneCR;
    assert Aligned(content, search, replace) == (content, search, replace);
    FoundFirst(content, search);
    assert content[..0] + replace + content[0 + |search|..] == out;
  }

  lemma FoundFirst(b: Bytes, s: Bytes)
    requires s <= b
    ensures Find(b, s) == Some(0)
  {}

  /** A block without LF is the same in either form. */
  lemma {:induction false} NoBreaks(b: Bytes, s: Bytes, t: Bytes)
    requires LF in s && LF !in b
    ensures ReplaceAll(b, s, t) == b
  {
    if |b| >= |s| {
      NoBreaks(b[1..], s, t);
      assert [b[0]] + b[1..] == b;
    }
  }
}
