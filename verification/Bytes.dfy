/** Byte strings, and the searches and replacements of the standard library that the approved edits are made with. */
module Bytes {
  import opened Wrappers

  type Byte = x: int | 0 <= x < 256
  type Bytes = seq<Byte>

  /** Some place at which s occurs in b. */
  predicate OccursAt(b: Bytes, s: Bytes, i: nat) {
    i + |s| <= |b| && b[i..i + |s|] == s
  }

  /** The first place at which s occurs in b. */
  function Find(b: Bytes, s: Bytes): (at: Option<nat>)
    ensures at.Some? ==> OccursAt(b, s, at.value) && forall j: nat :: j < at.value ==> !OccursAt(b, s, j)
    ensures at.None? ==> forall j: nat :: !OccursAt(b, s, j)
  {
    if s <= b then
      assert b[0..|s|] == s;
      Some(0)
    else if b == [] then None
    else
      var rest := Find(b[1..], s);
      OccursLater(b, s);
      if rest.None? then None else Some(rest.value + 1)
  }

  lemma SliceOfRest(b: Bytes, lo: nat, hi: nat)
    requires 0 < lo <= hi <= |b|
    ensures b[lo..hi] == b[1..][lo - 1..hi - 1]
  {
    forall k | 0 <= k < hi - lo ensures b[lo..hi][k] == b[1..][lo - 1..hi - 1][k] {}
  }

  lemma OccursLater(b: Bytes, s: Bytes)
    requires b != [] && !(s <= b)
    ensures forall j: nat :: OccursAt(b, s, j) <==> j > 0 && OccursAt(b[1..], s, j - 1)
  {
    forall j: nat ensures OccursAt(b, s, j) <==> j > 0 && OccursAt(b[1..], s, j - 1) {
      if j == 0 {
        assert |s| <= |b| ==> b[0..|s|] == b[..|s|];
      } else if j + |s| <= |b| {
        SliceOfRest(b, j, j + |s|);
      }
    }
  }

  /** How often s occurs in b, counted from the left without overlaps. */
  function Count(b: Bytes, s: Bytes): nat
    requires s != []
  {
    if |b| < |s| then 0
    else if b[..|s|] == s then 1 + Count(b[|s|..], s)
    else Count(b[1..], s)
  }

  /** Every occurrence of s in b, from the left without overlaps, replaced by t. */
  function ReplaceAll(b: Bytes, s: Bytes, t: Bytes): Bytes
    requires s != []
  {
    if |b| < |s| then b
    else if b[..|s|] == s then t + ReplaceAll(b[|s|..], s, t)
    else [b[0]] + ReplaceAll(b[1..], s, t)
  }
}
