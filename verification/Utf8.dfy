/** UTF-8 as the standard library checks it: the byte sequences of section 3 of RFC 3629. */
module Utf8 {
  import opened Bytes

  predicate Continues(b: Byte) {
    0x80 <= b < 0xC0
  }

  /** The first byte of a character. */
  predicate RuneStart(b: Byte) {
    !Continues(b)
  }

  /** The bytes of the character b starts with, 0 when it starts with none. */
  function RuneLen(b: Bytes): (n: nat)
    ensures n <= 4 && n <= |b|
    ensures n > 0 ==> RuneStart(b[0]) && forall i :: 0 < i < n ==> Continues(b[i])
  {
    if b == [] then 0
    else if b[0] < 0x80 then 1
    else if 0xC2 <= b[0] < 0xE0 then (if |b| >= 2 && Continues(b[1]) then 2 else 0)
    else if 0xE0 <= b[0] < 0xF0 then
      var lo := if b[0] == 0xE0 then 0xA0 else 0x80;
      var hi := if b[0] == 0xED then 0xA0 else 0xC0;
      (if |b| >= 3 && lo <= b[1] < hi && Continues(b[2]) then 3 else 0)
    else if 0xF0 <= b[0] < 0xF5 then
      var lo := if b[0] == 0xF0 then 0x90 else 0x80;
      var hi := if b[0] == 0xF4 then 0x90 else 0xC0;
      (if |b| >= 4 && lo <= b[1] < hi && Continues(b[2]) && Continues(b[3]) then 4 else 0)
    else 0
  }

  predicate Valid(b: Bytes) {
    b == [] || (RuneLen(b) > 0 && Valid(b[RuneLen(b)..]))
  }

  /** The character b starts with does not depend on what follows it. */
  lemma RuneLenPrefix(b: Bytes, n: nat)
    requires RuneLen(b) <= n <= |b|
    ensures RuneLen(b) > 0 ==> RuneLen(b[..n]) == RuneLen(b)
  {}

  lemma SliceOfTail(b: Bytes, k: nat, n: nat)
    requires k <= n <= |b|
    ensures b[k..][..n - k] == b[..n][k..] && b[k..][n - k..] == b[n..]
  {
    forall i | 0 <= i < n - k ensures b[k..][..n - k][i] == b[..n][k..][i] {}
    forall i | 0 <= i < |b| - n ensures b[k..][n - k..][i] == b[n..][i] {}
  }

  /** Cut where a character starts, both parts of a valid text are valid. */
  lemma {:induction false} CutAtRune(b: Bytes, n: nat)
    requires Valid(b) && n <= |b| && (n == |b| || RuneStart(b[n]))
    ensures Valid(b[..n]) && Valid(b[n..])
    decreases |b|
  {
    var k := RuneLen(b);
    if n == 0 {
      assert b[0..] == b;
    } else {
      assert k <= n;
      assert n == |b| || b[k..][n - k] == b[n];
      RuneLenPrefix(b, n);
      hide RuneLen;
      CutAtRune(b[k..], n - k);
      SliceOfTail(b, k, n);
    }
  }

  /** In a valid text a character starts at one of any four places in a row, counted back to its start. */
  lemma {:induction false} StartNearby(b: Bytes, n: nat) returns (m: nat)
    requires Valid(b) && n < |b|
    ensures m <= n < m + 4 && RuneStart(b[m]) && forall i :: m < i <= n ==> !RuneStart(b[i])
    decreases |b|
  {
    var k := RuneLen(b);
    if n < k {
      m := 0;
    } else {
      m := StartNearby(b[k..], n - k);
      m := m + k;
      forall i | m < i <= n ensures !RuneStart(b[i]) {
        assert b[k..][i - k] == b[i];
      }
    }
  }
}
