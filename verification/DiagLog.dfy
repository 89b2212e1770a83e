/** The diagnostic log: a current and a previous file, in all no longer than the bound, with the end of what was
    written. */
module DiagLog {
  import opened Wrappers
  import opened Bytes
  import opened Utf8

  const RESERVE := 128      // bytes set aside in each file for a closing marker
  const MARKER_ROOM := 128  // bytes an opening marker may take
  const MIN_BOUND := 8 * RESERVE
  const MAX_LINE := 65536   // longest unfinished line that is kept pending
  const NEWLINE: Byte := 10

  /** More than a 64-bit counter holds: 19 decimal digits are enough below it. */
  const LIMIT := 10_000_000_000_000_000_000

  // ----- the markers -----

  function Ascii(s: string): (b: Bytes)
    ensures |b| == |s|
  {
    if s == "" then [] else [(s[0] as int) % 128] + Ascii(s[1..])
  }

  function Digits(n: nat): Bytes {
    if n < 10 then [48 + n] else Digits(n / 10) + [48 + n % 10]
  }

  function Pow10(k: nat): nat {
    if k == 0 then 1 else 10 * Pow10(k - 1)
  }

  lemma {:induction false} DigitsLength(n: nat, k: nat)
    requires k > 0 && n < Pow10(k)
    ensures |Digits(n)| <= k
  {
    if n >= 10 {
      DigitsLength(n / 10, k - 1);
    }
  }

  function RotatedMarker(rotations: nat, dropped: nat): Bytes {
    Ascii("[staircase: rotated ") + Digits(rotations) + Ascii(" times, dropped ") + Digits(dropped)
    + Ascii(" bytes so far; earlier output is in the .1 file]\n")
  }

  function ClosingMarker(rotations: nat, dropped: nat): Bytes {
    Ascii("[staircase: rotated ") + Digits(rotations) + Ascii(" times, dropped ") + Digits(dropped)
    + Ascii(" bytes in all]\n")
  }

  /** Both markers fit the room kept for them, whatever a 64-bit counter holds. */
  lemma MarkersFit(rotations: nat, dropped: nat)
    requires rotations < LIMIT && dropped < LIMIT
    ensures |RotatedMarker(rotations, dropped)| <= MARKER_ROOM && |ClosingMarker(rotations, dropped)| <= RESERVE
  {
    assert Pow10(5) == 100_000;
    assert Pow10(10) == 10_000_000_000;
    assert Pow10(15) == 1_000_000_000_000_000;
    assert Pow10(19) == LIMIT;
    DigitsLength(rotations, 19);
    DigitsLength(dropped, 19);
  }

  // ----- text and its cuts -----

  /** The last line end in b. */
  method LastNewline(b: Bytes) returns (at: Option<nat>)
    ensures at.Some? ==> at.value < |b| && b[at.value] == NEWLINE && forall j :: at.value < j < |b| ==> b[j] != NEWLINE
    ensures at.None? ==> NEWLINE !in b
  {
    var i: nat := |b|;
    while i > 0
      invariant i <= |b|
      invariant forall j :: i <= j < |b| ==> b[j] != NEWLINE
    {
      i := i - 1;
      if b[i] == NEWLINE {
        return Some(i);
      }
    }
    return None;
  }

  /** No four bytes in a row continue a character: what every part of a text in UTF-8 obeys, wherever it was cut. */
  predicate PartOfText(b: Bytes) {
    forall n :: 3 <= n < |b| ==> StartsWithinFour(b, n)
  }

  predicate StartsWithinFour(b: Bytes, n: nat)
    requires 3 <= n < |b|
  {
    RuneStart(b[n]) || RuneStart(b[n - 1]) || RuneStart(b[n - 2]) || RuneStart(b[n - 3])
  }

  lemma TextIsPartOfText(b: Bytes)
    requires Valid(b)
    ensures PartOfText(b)
  {
    forall n | 3 <= n < |b| ensures StartsWithinFour(b, n) {
      var m := StartNearby(b, n);
    }
  }

  lemma SliceIsPartOfText(b: Bytes, i: nat, j: nat)
    requires PartOfText(b) && i <= j <= |b|
    ensures PartOfText(b[i..j])
  {
    forall n | 3 <= n < j - i ensures StartsWithinFour(b[i..j], n) {
      assert StartsWithinFour(b, i + n);
    }
  }

  lemma StartIsPartOfText(a: Bytes, b: Bytes)
    requires PartOfText(a + b)
    ensures PartOfText(a)
  {
    SliceIsPartOfText(a + b, 0, |a|);
    assert (a + b)[0..|a|] == a;
  }

  /** After a line end a character starts. */
  lemma {:induction false} StartAfterNewline(b: Bytes, i: nat)
    requires Valid(b) && i + 1 < |b| && b[i] == NEWLINE
    ensures RuneStart(b[i + 1])
    decreases |b|
  {
    var k := RuneLen(b);
    if i + 1 < k {
      assert false;
    } else if i + 1 == k {
      assert RuneLen(b[k..]) > 0;
    } else {
      StartAfterNewline(b[k..], i - k);
    }
  }

  /** The end of b, at most `keep` bytes of it, starting where a character starts. */
  function KeepTail(b: Bytes, keep: nat): (tail: Bytes)
    ensures |tail| <= |b| && tail == b[|b| - |tail|..] && |tail| <= (if |b| <= keep then |b| else keep)
  {
    if |b| <= keep then b else FromStart(b[|b| - keep..])
  }

  function FromStart(b: Bytes): (tail: Bytes)
    ensures |tail| <= |b| && tail == b[|b| - |tail|..] && (tail != [] ==> RuneStart(tail[0]))
  {
    if b == [] || RuneStart(b[0]) then b else FromStart(b[1..])
  }

  /** The tail is as long as it may be exactly when nothing was to cut, or the cut is where a character starts. */
  lemma KeepTailWhole(b: Bytes, keep: nat)
    ensures |KeepTail(b, keep)| == (if |b| <= keep then |b| else keep) <==>
        |b| <= keep || keep == 0 || RuneStart(b[|b| - keep])
  {}

  predicate EndsWith(b: Bytes, tail: Bytes) {
    |tail| <= |b| && b[|b| - |tail|..] == tail
  }

  // ----- what was written -----

  /** What went into the files, in order: what they held when the log was opened, the writers' text, the log's own
      markers. */
  datatype Piece = Old(bytes: Bytes) | Text(bytes: Bytes) | Marker(bytes: Bytes)

  ghost function Flat(ps: seq<Piece>): Bytes {
    if ps == [] then [] else Flat(ps[..|ps| - 1]) + ps[|ps| - 1].bytes
  }

  ghost function Texts(ps: seq<Piece>): Bytes {
    if ps == [] then [] else Texts(ps[..|ps| - 1]) + if ps[|ps| - 1].Text? then ps[|ps| - 1].bytes else []
  }

  lemma PiecesGrow(ps: seq<Piece>, p: Piece)
    ensures Flat(ps + [p]) == Flat(ps) + p.bytes
    ensures Texts(ps + [p]) == Texts(ps) + if p.Text? then p.bytes else []
  {
    assert (ps + [p])[..|ps|] == ps;
  }

  /** Each piece of text from position k on is whole characters. */
  ghost predicate TextValid(ps: seq<Piece>, k: nat) {
    forall i :: k <= i < |ps| && ps[i].Text? ==> Valid(ps[i].bytes)
  }

  /** The account of a log: what went into its files; the part of that no file holds any more; the bytes dropped
      without being written, and how many of them were the writers'; the bytes lost at open by cutting at a
      character, which the log does not count; and everything the writers wrote. */
  datatype Account = Account(pieces: seq<Piece>, gone: Bytes, lost: nat, lostText: nat, trimmed: nat, taken: Bytes)

  /** Nothing is out of order or uncounted: the two files are the end of what was written and the rest of it was
      dropped; the writers' text is all written or still to come, but for what was dropped unwritten. */
  ghost predicate Balanced(a: Account, dropped: nat, previous: Bytes, file: Bytes, toCome: Bytes) {
    && Flat(a.pieces) == a.gone + previous + file
    && dropped + a.trimmed == |a.gone| + a.lost
    && |a.taken| == |Texts(a.pieces)| + a.lostText + |toCome|
    && a.lostText <= a.lost
    && (a.lostText == 0 ==> a.taken == Texts(a.pieces) + toCome)
  }

  function TextOf(p: Piece): Bytes {
    if p.Text? then p.bytes else []
  }

  lemma StartBalances(previous: Bytes, file: Bytes)
    ensures Balanced(Account([Old(previous + file)], [], 0, 0, 0, []), 0, previous, file, [] + [])
  {
    var p := Old(previous + file);
    PiecesGrow([], p);
    assert [] + [p] == [p] && [] + previous + file == previous + file;
  }

  /** The writers add to what is still to come. */
  lemma TakenBalances(a: Account, dropped: nat, previous: Bytes, file: Bytes, pending: Bytes, p: Bytes)
    requires Balanced(a, dropped, previous, file, [] + pending)
    ensures Balanced(a.(taken := a.taken + p), dropped, previous, file, [] + (pending + p))
  {
    hide Flat, Texts;
    assert [] + (pending + p) == ([] + pending) + p;
    assert Texts(a.pieces) + ([] + pending) + p == Texts(a.pieces) + (([] + pending) + p);
  }

  lemma PutBalances(a: Account, dropped: nat, previous: Bytes, file: Bytes, toCome: Bytes, p: Piece, rest: Bytes)
    requires Balanced(a, dropped, previous, file, toCome) && toCome == TextOf(p) + rest
    ensures Balanced(a.(pieces := a.pieces + [p]), dropped, previous, file + p.bytes, rest)
  {
    PiecesGrow(a.pieces, p);
    hide Flat, Texts;
    assert a.gone + previous + file + p.bytes == a.gone + previous + (file + p.bytes);
    assert Texts(a.pieces) + (TextOf(p) + rest) == Texts(a.pieces) + TextOf(p) + rest;
    assert Texts(a.pieces + [p]) == Texts(a.pieces) + TextOf(p);
  }

  lemma DropBalances(a: Account, dropped: nat, previous: Bytes, file: Bytes, toCome: Bytes, p: Piece, rest: Bytes)
    requires Balanced(a, dropped, previous, file, toCome) && toCome == TextOf(p) + rest
    ensures Balanced(a.(lost := a.lost + |p.bytes|, lostText := a.lostText + |TextOf(p)|), dropped + |p.bytes|,
                     previous, file, rest)
  {
    hide Flat, Texts;
  }

  lemma RotateBalances(a: Account, dropped: nat, previous: Bytes, file: Bytes, toCome: Bytes, half: nat)
    requires Balanced(a, dropped, previous, file, toCome)
    ensures var tail := KeepTail(file, half);
            Balanced(a.(gone := a.gone + previous + file[..|file| - |tail|],
                        trimmed := a.trimmed + if |file| <= half then 0 else half - |tail|),
                     dropped + |previous| + if |file| <= half then 0 else |file| - half, tail, [], toCome)
  {
    var tail := KeepTail(file, half);
    hide Flat, Texts, FromStart;
    var front := file[..|file| - |tail|];
    assert file == front + tail;
    Regroup(a.gone + previous, front, tail);
  }

  lemma NothingAdded(b: Bytes)
    ensures [] + b == b && b + [] == b
  {}

  lemma Regroup(x: Bytes, y: Bytes, z: Bytes)
    ensures x + (y + z) == (x + y) + z + []
  {}

  class Log {
    const max: nat
    var file: Bytes
    var previous: Option<Bytes>   // the .1 file
    var written: nat
    var rotations: nat
    var dropped: nat
    var pending: Bytes

    ghost const fits: bool        // the .1 file was at most half of the bound when the log was opened
    ghost var account: Account

    function Half(): nat {
      max / 2
    }

    function Previous(): Bytes
      reads this
    {
      if previous.Some? then previous.value else []
    }

    /** The counters are as a 64-bit counter can hold them. */
    ghost predicate Counted()
      reads this
    {
      rotations < LIMIT && dropped < LIMIT
    }

    /** The books balance while b is on its way to the file. */
    ghost predicate Conserved(b: Bytes)
      reads this
    {
      && written == |file|
      && Balanced(account, dropped, Previous(), file, b + pending)
      && (rotations == 0 ==> dropped == 0 && account.lost == 0)
    }

    /** The bound holds of each file by halves, and once the log has rotated a closing marker still fits; text in UTF-8
        is never dropped unwritten. */
    ghost predicate Bounded()
      reads this
    {
      && MIN_BOUND <= max
      && |file| <= Half()
      && (fits || rotations > 0 ==> |Previous()| <= Half())
      && (Counted() && rotations > 0 ==> |file| <= Half() - RESERVE)
      && (Counted() && PartOfText(account.taken) ==> account.lost == 0)
    }

    ghost predicate Ready()
      reads this
    {
      Conserved([]) && Bounded()
    }

    /** Opens the log over existing files; a first file of half of the bound or more becomes the previous one. */
    constructor (bound: nat, file: Bytes, previous: Option<Bytes>)
      ensures Ready() && max == (if bound < MIN_BOUND then MIN_BOUND else bound)
      ensures account.taken == [] && pending == []
      ensures fits <==> previous.None? || |previous.value| <= Half()
      ensures account.pieces != [] && account.pieces[0] == Old((if previous.Some? then previous.value else []) + file)
      ensures |file| < Half() ==> this.file == file && this.previous == previous && rotations == 0
      ensures |file| >= Half() ==> this.previous == Some(KeepTail(file, Half())) && rotations == 1
      ensures account.trimmed == if |file| <= Half() then 0 else Half() - |KeepTail(file, Half())|
      ensures |file| >= Half() && (if previous.Some? then |previous.value| else 0) + |file| < LIMIT ==>
                dropped == (if previous.Some? then |previous.value| else 0) + |file| - Half()
      ensures |file| >= Half() ==>
                account.gone == (if previous.Some? then previous.value else [])
                                + file[..|file| - |KeepTail(file, Half())|]
    {
      var size := if bound < MIN_BOUND then MIN_BOUND else bound;
      var earlier := if previous.Some? then previous.value else [];
      this.max := size;
      this.file, this.previous := file, previous;
      written, rotations, dropped, pending := |file|, 0, 0, [];
      fits := |earlier| <= size / 2;
      account := Account([Old(earlier + file)], [], 0, 0, 0, []);
      new;
      StartBalances(earlier, file);
      hide Balanced, PartOfText, KeepTail;
      assert Conserved([]);
      RotateIfHalf();
    }

    /** A file that is at half of the bound when the log is opened becomes the previous one. */
    method RotateIfHalf()
      requires Conserved([]) && MIN_BOUND <= max && rotations == 0 && account.gone == [] && account.trimmed == 0
      requires fits <==> |Previous()| <= Half()
      modifies this
      ensures Ready() && account.taken == old(account.taken) && pending == old(pending)
      ensures old(account.pieces) <= account.pieces
      ensures old(|file|) < Half() ==>
          file == old(file) && previous == old(previous) && rotations == 0 && account == old(account)
      ensures old(|file|) >= Half() ==> previous == Some(KeepTail(old(file), Half())) && rotations == 1
      ensures account.trimmed == if old(|file|) <= Half() then 0 else Half() - |KeepTail(old(file), Half())|
      ensures old(|file|) >= Half() && old(|Previous()| + |file|) < LIMIT ==>
          dropped == old(|Previous()| + |file|) - Half()
      ensures old(|file|) >= Half() ==>
          account.gone == old(Previous()) + old(file)[..old(|file|) - |KeepTail(old(file), Half())|]
    {
      hide Balanced, PartOfText, KeepTail;
      if written >= Half() {
        NothingAdded(Previous());
        Rotate([]);
      }
    }

    /** Takes p into the log, whatever becomes of it. */
    method Write(p: Bytes) returns (n: nat)
      requires Ready()
      modifies this
      ensures Ready() && n == |p|
      ensures account.taken == old(account.taken) + p
      ensures old(account.pieces) <= account.pieces && account.trimmed == old(account.trimmed)
      ensures rotations >= old(rotations) && dropped >= old(dropped)
      ensures NEWLINE !in pending && |pending| <= MAX_LINE
    {
      hide Balanced, PartOfText;
      TakenBalances(account, dropped, Previous(), file, pending, p);
      if PartOfText(account.taken + p) {
        StartIsPartOfText(account.taken, p);
      }
      pending := pending + p;
      account := account.(taken := account.taken + p);
      Drain(false);
      n := |p|;
    }

    /** Nothing stays pending, and the file ends in the account of what is gone, for which there is always room. */
    method Close()
      requires Ready()
      modifies this
      ensures Conserved([]) && pending == [] && account.taken == old(account.taken)
      ensures |file| <= Half() && (fits || rotations > 0 ==> |Previous()| <= Half())
      ensures Counted() && PartOfText(account.taken) ==> account.lost == 0
      ensures old(account.pieces) <= account.pieces && account.trimmed == old(account.trimmed)
      ensures Counted() && (rotations > 0 || dropped > 0) ==>
                account.pieces != [] && account.pieces[|account.pieces| - 1] ==
                    Marker(ClosingMarker(rotations, dropped))
                && EndsWith(file, ClosingMarker(rotations, dropped))
    {
      hide RotatedMarker, ClosingMarker, PartOfText, Balanced;
      Drain(true);
      if rotations > 0 || dropped > 0 {
        if Counted() {
          MarkersFit(rotations, dropped);
        }
        assert [] + pending == [] && TextOf(Marker(ClosingMarker(rotations, dropped))) + [] == [];
        Put(Marker(ClosingMarker(rotations, dropped)), []);
      }
    }

    /** What is pending goes to the file up to its last line end, or all of it when the log ends or no line end came in
        time. */
    method Drain(final: bool)
      requires Ready()
      modifies this
      ensures Ready() && account.taken == old(account.taken)
      ensures old(account.pieces) <= account.pieces && account.trimmed == old(account.trimmed)
      ensures rotations >= old(rotations) && dropped >= old(dropped)
      ensures NEWLINE !in pending && |pending| <= MAX_LINE && (final ==> pending == [])
    {
      hide Balanced, PartOfText;
      var at := LastNewline(pending);
      if at.Some? {
        var lines := pending[..at.value + 1];
        assert [] + pending == lines + pending[at.value + 1..];
        pending := pending[at.value + 1..];
        Emit(lines);
      }
      if final || |pending| > MAX_LINE {
        var rest := pending;
        assert [] + pending == rest + [];
        pending := [];
        Emit(rest);
      }
    }

    /** All of `all` goes to the files, piece by piece, with a rotation before each piece that does not fit. Each piece
        but the last of a file ends in a line break if one is within reach, and else where a character ends. */
    method Emit(all: Bytes)
      requires Conserved(all) && Bounded()
      modifies this
      ensures Ready() && account.taken == old(account.taken) && pending == old(pending)
      ensures old(account.pieces) <= account.pieces && account.trimmed == old(account.trimmed)
      ensures rotations >= old(rotations) && dropped >= old(dropped)
      ensures Counted() && Valid(all) ==> TextValid(account.pieces, |old(account.pieces)|)
    {
      hide Balanced, PartOfText, Valid;
      var b, rotated := all, false;
      while b != []
        invariant Conserved(b) && Bounded() && account.taken == old(account.taken) && pending == old(pending)
        invariant old(account.pieces) <= account.pieces && account.trimmed == old(account.trimmed)
        invariant rotations >= old(rotations) && dropped >= old(dropped)
        invariant rotated ==> rotations > 0 && (Counted() ==> |file| <= MARKER_ROOM)
        invariant Valid(all) ==> Valid(b)
        invariant Counted() && Valid(all) ==> TextValid(account.pieces, |old(account.pieces)|)
        decreases |b|, if rotated then 0 else 1
      {
        var room := if written + RESERVE <= Half() then Half() - RESERVE - written else 0;
        var n := CutPoint(b, room, rotated, |b| + RESERVE + MARKER_ROOM <= Half());
        if n == 0 && rotated {
          DropBalances(account, dropped, Previous(), file, b + pending, Text(b), pending);
          if Counted() && PartOfText(account.taken) {
            PartToCome(account, dropped, Previous(), file, b, pending);
          }
          assert [] + pending == pending;
          dropped, account := dropped + |b|, account.(lost := account.lost + |b|, lostText := account.lostText + |b|);
          return;
        }
        if n == 0 {
          Rotate(b);
          rotated := true;
        } else {
          assert b + pending == b[..n] + (b[n..] + pending);
          Put(Text(b[..n]), b[n..] + pending);
          b := b[n..];
          rotated := false;
          if b != [] {
            Rotate(b);
            rotated := true;
          }
        }
      }
    }

    /** The piece is at the end of the file, or, when that would be too long, only in the account of what was lost. */
    method Put(p: Piece, ghost rest: Bytes)
      requires written == |file| && Balanced(account, dropped, Previous(), file, TextOf(p) + rest)
      modifies this
      ensures written == |file| && Balanced(account, dropped, Previous(), file, rest)
      ensures pending == old(pending) && rotations == old(rotations) && previous == old(previous)
      ensures if old(|file|) + |p.bytes| <= Half() then
                file == old(file) + p.bytes && dropped == old(dropped)
                && account == old(account).(pieces := old(account).pieces + [p])
              else
                file == old(file) && dropped == old(dropped) + |p.bytes|
                && account == old(account).(lost := old(account).lost + |p.bytes|,
                                            lostText := old(account).lostText + |TextOf(p)|)
    {
      hide Balanced;
      if written + |p.bytes| > Half() {
        DropBalances(account, dropped, Previous(), file, TextOf(p) + rest, p, rest);
        dropped := dropped + |p.bytes|;
        account := account.(lost := account.lost + |p.bytes|, lostText := account.lostText + |TextOf(p)|);
        return;
      }
      PutBalances(account, dropped, Previous(), file, TextOf(p) + rest, p, rest);
      file := file + p.bytes;
      written := written + |p.bytes|;
      account := account.(pieces := account.pieces + [p]);
    }

    /** The current file, or the end of it that fits, becomes the previous one, whose content is gone, and the current
        one starts over with a marker that counts the loss. */
    method Rotate(ghost b: Bytes)
      requires Conserved(b) && MIN_BOUND <= max
      requires Counted() && PartOfText(account.taken) ==> account.lost == 0
      modifies this
      ensures Conserved(b) && Bounded()
      ensures account.taken == old(account.taken) && pending == old(pending)
      ensures previous == Some(KeepTail(old(file), Half()))
      ensures account.trimmed == old(account.trimmed)
                                 + if old(|file|) <= Half() then 0 else Half() - |KeepTail(old(file), Half())|
      ensures account.gone == old(account.gone) + old(Previous()) + old(file)[..old(|file|) - |Previous()|]
      ensures rotations == old(rotations) + 1 && dropped >= old(dropped)
      ensures rotations < LIMIT && old(dropped + |Previous()| + |file|) < LIMIT ==>
                dropped == old(dropped + |Previous()|) + if old(|file|) <= Half() then 0 else old(|file|) - Half()
      ensures Counted() ==> |file| <= MARKER_ROOM && account.pieces == old(account.pieces) + [Marker(file)]
      ensures account.pieces == old(account.pieces) || account.pieces == old(account.pieces) + [Marker(file)]
    {
      hide Balanced, PartOfText, RotatedMarker, KeepTail, Digits;
      RotateBalances(account, dropped, Previous(), file, b + pending, Half());
      ghost var tail := KeepTail(file, Half());
      account := account.(gone := account.gone + Previous() + file[..|file| - |tail|],
                          trimmed := account.trimmed + if |file| <= Half() then 0 else Half() - |tail|);
      if previous.Some? {
        dropped := dropped + |previous.value|;
      }
      if written > Half() {
        dropped := dropped + (written - Half());
      }
      KeepTailWhole(file, Half());
      previous := Some(KeepTail(file, Half()));
      rotations, written, file := rotations + 1, 0, [];
      MarkFresh(b);
    }

    /** The first line of a fresh file. */
    method MarkFresh(ghost b: Bytes)
      requires file == [] && written == 0 && rotations > 0 && MIN_BOUND <= max && |Previous()| <= Half()
      requires Balanced(account, dropped, Previous(), file, b + pending)
      requires Counted() && PartOfText(account.taken) ==> account.lost == 0
      modifies this
      ensures Conserved(b) && Bounded()
      ensures pending == old(pending) && previous == old(previous) && rotations == old(rotations) &&
          dropped >= old(dropped)
      ensures account.taken == old(account.taken) && account.trimmed == old(account.trimmed) &&
          account.gone == old(account.gone)
      ensures old(Counted()) ==> dropped == old(dropped)
      ensures Counted() ==> |file| <= MARKER_ROOM && account.pieces == old(account.pieces) + [Marker(file)]
      ensures account.pieces == old(account.pieces) || account.pieces == old(account.pieces) + [Marker(file)]
    {
      hide Balanced, PartOfText, RotatedMarker, ClosingMarker;
      if Counted() {
        MarkersFit(rotations, dropped);
      }
      var marker := RotatedMarker(rotations, dropped);
      NothingAdded(b + pending);
      NothingAdded(marker);
      Put(Marker(marker), b + pending);
    }
  }

  /** How much of b goes to the file now: all of it when it fits, else up to a line end in the room there is, else
      nothing when a fresh file holds it whole, else up to the start of a character. */
  method CutPoint(b: Bytes, room: nat, rotated: bool, fitsFresh: bool) returns (n: nat)
    requires b != []
    ensures n <= |b| && n <= room
    ensures |b| <= room ==> n == |b|
    ensures Valid(b) ==> Valid(b[..n]) && Valid(b[n..])
    ensures rotated && room >= 4 && PartOfText(b) ==> n > 0
    ensures 0 < n < |b| ==> b[n - 1] == NEWLINE || (NEWLINE !in b[..room] && RuneStart(b[n]) && (rotated || !fitsFresh))
  {
    hide Valid;
    n := if |b| < room then |b| else room;
    if n < |b| {
      var at := LastNewline(b[..n]);
      if at.Some? {
        n := at.value + 1;
        if Valid(b) {
          StartAfterNewline(b, n - 1);
          CutAtRune(b, n);
        }
        return;
      } else if !rotated && fitsFresh {
        n := 0; // rotate rather than cut it
      } else {
        while n > 0 && !RuneStart(b[n])
          invariant n <= room
          invariant forall i :: n < i <= room ==> !RuneStart(b[i])
        {
          n := n - 1;
        }
      }
      if n == 0 {
        assert b[..0] == [] && b[0..] == b;
        assert rotated && room >= 4 && PartOfText(b) ==> StartsWithinFour(b, 4);
      }
    }
    if Valid(b) {
      NothingValid();
      if n > 0 {
        CutAtRune(b, n);
      }
    }
  }

  lemma NothingValid()
    ensures Valid([])
  {}

  /** What is still to come of a text in UTF-8, nothing of which was dropped, is part of it. */
  lemma PartToCome(a: Account, dropped: nat, previous: Bytes, file: Bytes, b: Bytes, pending: Bytes)
    requires Balanced(a, dropped, previous, file, b + pending) && a.lost == 0 && PartOfText(a.taken)
    ensures PartOfText(b)
  {
    hide Flat, Texts, PartOfText;
    var t := Texts(a.pieces);
    assert a.taken[|t|..|t| + |b|] == b;
    SliceIsPartOfText(a.taken, |t|, |t| + |b|);
  }

  /** The bytes of the pieces that are not the writers'. */
  ghost function Others(ps: seq<Piece>): nat {
    if ps == [] then 0 else Others(ps[..|ps| - 1]) + if ps[|ps| - 1].Text? then 0 else |ps[|ps| - 1].bytes|
  }

  lemma {:induction false} PiecesAdd(ps: seq<Piece>)
    ensures |Flat(ps)| == |Texts(ps)| + Others(ps)
  {
    if ps != [] {
      PiecesAdd(ps[..|ps| - 1]);
    }
  }

  /** Every byte is accounted for: what the writers wrote, the markers and what was there at open are in the two
      files, pending or counted as dropped, but for the bytes cut at a character at open. */
  lemma BytesAccounted(l: Log)
    requires l.Ready()
    ensures |l.account.taken| + Others(l.account.pieces)
            == |l.Previous()| + |l.file| + |l.pending| + l.dropped +
                l.account.trimmed - (l.account.lost - l.account.lostText)
  {
    PiecesAdd(l.account.pieces);
    assert [] + l.pending == l.pending;
  }

  /** The two files never exceed the bound together, and while the counters are 64-bit counters a log of text in
      UTF-8 holds the end of exactly what was written: nothing of it was dropped but by rotation. */
  lemma NewestSurvives(l: Log)
    requires l.Ready() && (l.fits || l.rotations > 0)
    ensures |l.Previous()| + |l.file| <= l.max
    ensures l.Counted() && (Valid(l.account.taken) || PartOfText(l.account.taken)) ==>
              && l.account.taken == Texts(l.account.pieces) + l.pending
              && EndsWith(Flat(l.account.pieces), l.Previous() + l.file)
              && l.dropped + l.account.trimmed == |Flat(l.account.pieces)| - |l.Previous()| - |l.file|
  {
    if Valid(l.account.taken) {
      TextIsPartOfText(l.account.taken);
    }
    hide Valid, PartOfText;
    assert [] + l.pending == l.pending;
    assert l.account.gone + l.Previous() + l.file == l.account.gone + (l.Previous() + l.file);
  }

  /** A tail that would start inside a character of two bytes starts after it. */
  lemma CutCharacter(file: Bytes, keep: nat)
    requires |file| == keep + 1 && keep > 1 && file[1] == 0xA9 && file[2] == NEWLINE
    ensures KeepTail(file, keep) == file[2..]
  {
    var cut := file[1..];
    assert |file| - keep == 1 && KeepTail(file, keep) == FromStart(cut);
    assert cut[0] == 0xA9 && cut[1..] == file[2..];
    assert FromStart(cut) == FromStart(file[2..]) && file[2..][0] == NEWLINE;
  }

  /** The cut at open at an input: a file one byte over half of the smallest bound, which starts with a character of
      two bytes. The .1 file holds one byte less than half of the bound: both bytes of the character are gone, and
      `dropped` counts one of them. */
  method OpenCutsCharacter() returns (l: Log)
    ensures fresh(l) && l.Ready() && l.max == MIN_BOUND && l.rotations == 1
    ensures |l.Previous()| == l.Half() - 1 && l.account.gone == [0xC3, 0xA9] && l.dropped == 1 && l.account.trimmed == 1
  {
    hide RotatedMarker, KeepTail, Balanced, PartOfText;
    var file: Bytes := [0xC3, 0xA9] + seq(MIN_BOUND / 2 - 1, _ => NEWLINE);
    CutCharacter(file, MIN_BOUND / 2);
    l := new Log(0, file, None);
    NothingAdded([0xC3, 0xA9]);
    assert file[..2] == [0xC3, 0xA9];
  }
}
