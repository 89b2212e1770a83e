/** The audit chain's hash: what an entry's hash covers, and what a chain that verifies is bound to. */
module ChainHash {
  import opened Wrappers
  import opened Bytes

  datatype Entry = Entry(id: int, eventType: Bytes, payload: Bytes, hash: Bytes, commit: Bytes, version: int)

  datatype Fault = UnknownVersion(at: nat) | Mismatch(at: nat, want: Bytes)

  /** The digest's text; the program writes 64 hexadecimal digits. */
  type Digest = Bytes -> Bytes

  ghost predicate Digests(sha: Digest) {
    forall b :: |sha(b)| == 64
  }

  // staircase-chain-v2\n
  const LABEL: Bytes := [115, 116, 97, 105, 114, 99, 97, 115, 101, 45, 99, 104, 97, 105, 110, 45, 118, 50, 10]

  /** n's k lowest bytes, the highest first. */
  function BigEndian(n: nat, k: nat): (b: Bytes)
    ensures |b| == k
  {
    if k == 0 then [] else BigEndian(n / 256, k - 1) + [n % 256]
  }

  function Field(f: Bytes): Bytes {
    BigEndian(|f|, 8) + f
  }

  function PreimageV2(eventType: Bytes, payload: Bytes, prev: Bytes, commit: Bytes): Bytes {
    LABEL + Field(eventType) + Field(payload) + Field(prev) + Field(commit)
  }

  function PreimageV1(payload: Bytes, prev: Bytes, commit: Bytes): Bytes {
    payload + prev + commit
  }

  /** What an entry's hash is taken of, after one that carries prev. */
  function PreimageOf(e: Entry, prev: Bytes): Bytes {
    if e.version == 2 then PreimageV2(e.eventType, e.payload, prev, e.commit) else PreimageV1(e.payload, prev, e.commit)
  }

  /** The hash an entry must carry after one that carries prev; None for a version that is not known. */
  function Expected(sha: Digest, e: Entry, prev: Bytes): Option<Bytes> {
    if e.version in {0, 1, 2} then Some(sha(PreimageOf(e, prev))) else None
  }

  function HashBefore(entries: seq<Entry>, i: nat): Bytes
    requires i <= |entries|
  {
    if i == 0 then [] else entries[i - 1].hash
  }

  /** Entry i has the hash that its version, its fields and its predecessor's stored hash call for. */
  predicate Intact(sha: Digest, entries: seq<Entry>, i: nat)
    requires i < |entries|
  {
    Expected(sha, entries[i], HashBefore(entries, i)) == Some(entries[i].hash)
  }

  predicate Verifies(sha: Digest, entries: seq<Entry>) {
    forall i :: 0 <= i < |entries| ==> Intact(sha, entries, i)
  }

  /** Version 2's hash, fed field by field. */
  method HashV2(sha: Digest, eventType: Bytes, payload: Bytes, prev: Bytes, commit: Bytes) returns (h: Bytes)
    ensures h == sha(PreimageV2(eventType, payload, prev, commit))
  {
    var fed := LABEL;
    var fields := [eventType, payload, prev, commit];
    for i := 0 to |fields|
      invariant i == 0 ==> fed == LABEL
      invariant i == 1 ==> fed == LABEL + Field(eventType)
      invariant i == 2 ==> fed == LABEL + Field(eventType) + Field(payload)
      invariant i == 3 ==> fed == LABEL + Field(eventType) + Field(payload) + Field(prev)
      invariant i == 4 ==> fed == PreimageV2(eventType, payload, prev, commit)
    {
      hide BigEndian, LABEL;
      fed := fed + BigEndian(|fields[i]|, 8);
      fed := fed + fields[i];
      assert forall a: Bytes, b: Bytes, c: Bytes :: a + (b + c) == (a + b) + c;
    }
    h := sha(fed);
  }

  /** What is wrong with an entry, if anything. */
  function FaultAt(sha: Digest, entries: seq<Entry>, i: nat): (f: Option<Fault>)
    requires i < |entries|
    ensures f.None? <==> Intact(sha, entries, i)
    ensures f.Some? ==> f.value.at == i && (f.value.UnknownVersion? <==> entries[i].version !in {0, 1, 2})
  {
    match Expected(sha, entries[i], HashBefore(entries, i))
    case None => Some(UnknownVersion(i))
    case Some(want) => if entries[i].hash == want then None else Some(Mismatch(i, want))
  }

  /** One verdict for each entry, which depends on no other entry's verdict. */
  method Check(sha: Digest, entries: seq<Entry>) returns (out: seq<Option<Fault>>)
    ensures |out| == |entries| && forall i :: 0 <= i < |entries| ==> out[i] == FaultAt(sha, entries, i)
  {
    hide Expected, Intact;
    out := [];
    var prev: Bytes := [];
    for i := 0 to |entries|
      invariant |out| == i && prev == HashBefore(entries, i)
      invariant forall k :: 0 <= k < i ==> out[k] == FaultAt(sha, entries, k)
    {
      var e := entries[i];
      var want := Expected(sha, e, prev);
      var fault := None;
      if want.None? {
        fault := Some(UnknownVersion(i));
      } else if e.hash != want.value {
        fault := Some(Mismatch(i, want.value));
      }
      out := out + [fault];
      prev := e.hash;
    }
  }

  /** Names the first entry that is not intact. */
  method Verify(sha: Digest, entries: seq<Entry>) returns (r: Option<Fault>)
    ensures r.None? <==> Verifies(sha, entries)
    ensures r.Some? ==> r.value.at < |entries| && !Intact(sha, entries, r.value.at)
                        && forall i :: 0 <= i < r.value.at ==> Intact(sha, entries, i)
  {
    hide Intact, FaultAt;
    var out := Check(sha, entries);
    for i := 0 to |out|
      invariant forall k :: 0 <= k < i ==> Intact(sha, entries, k)
    {
      assert out[i] == FaultAt(sha, entries, i);
      if out[i].Some? {
        return out[i];
      }
    }
    return None;
  }

  // ----- what a hash is bound to -----

  function Power256(k: nat): nat {
    if k == 0 then 1 else 256 * Power256(k - 1)
  }

  lemma {:induction false} BigEndianInjective(n: nat, m: nat, k: nat)
    requires n < Power256(k) && m < Power256(k) && BigEndian(n, k) == BigEndian(m, k)
    ensures n == m
  {
    if k > 0 {
      var a, b := BigEndian(n / 256, k - 1), BigEndian(m / 256, k - 1);
      assert (a + [n % 256])[..k - 1] == a && (b + [m % 256])[..k - 1] == b;
      assert (a + [n % 256])[k - 1] == n % 256 && (b + [m % 256])[k - 1] == m % 256;
      BigEndianInjective(n / 256, m / 256, k - 1);
    }
  }

  /** A field can be held in memory, so its length fits its prefix. */
  predicate Fits(f: Bytes) {
    |f| < 0x1_0000_0000_0000_0000
  }

  lemma FieldSplits(f: Bytes, x: Bytes, g: Bytes, y: Bytes)
    requires Fits(f) && Fits(g) && Field(f) + x == Field(g) + y
    ensures f == g && x == y
  {
    var a, b := BigEndian(|f|, 8), BigEndian(|g|, 8);
    hide BigEndian;
    assert (Field(f) + x)[..8] == a && (Field(g) + y)[..8] == b;
    assert Power256(8) == 0x1_0000_0000_0000_0000 by {
      assert Power256(4) == 0x1_0000_0000;
    }
    BigEndianInjective(|f|, |g|, 8);
    assert (Field(f) + x)[8..8 + |f|] == f && (Field(g) + y)[8..8 + |g|] == g;
    assert (Field(f) + x)[8 + |f|..] == x && (Field(g) + y)[8 + |g|..] == y;
  }

  /** Version 2's preimage determines the four fields. */
  lemma PreimageDetermines(t: Bytes, p: Bytes, h: Bytes, c: Bytes, t': Bytes, p': Bytes, h': Bytes, c': Bytes)
    requires Fits(t) && Fits(p) && Fits(h) && Fits(c) && Fits(t') && Fits(p') && Fits(h') && Fits(c')
    requires PreimageV2(t, p, h, c) == PreimageV2(t', p', h', c')
    ensures t == t' && p == p' && h == h' && c == c'
  {
    AfterLabel(t, p, h, c);
    AfterLabel(t', p', h', c');
    hide Field, PreimageV2, LABEL;
    FieldSplits(t, Field(p) + (Field(h) + (Field(c) + [])), t', Field(p') + (Field(h') + (Field(c') + [])));
    FieldSplits(p, Field(h) + (Field(c) + []), p', Field(h') + (Field(c') + []));
    FieldSplits(h, Field(c) + [], h', Field(c') + []);
    FieldSplits(c, [], c', []);
  }

  lemma AfterLabel(t: Bytes, p: Bytes, h: Bytes, c: Bytes)
    ensures PreimageV2(t, p, h, c)[|LABEL|..] == Field(t) + (Field(p) + (Field(h) + (Field(c) + [])))
  {
    hide Field;
    var rest := Field(t) + (Field(p) + (Field(h) + (Field(c) + [])));
    assert PreimageV2(t, p, h, c) == LABEL + rest;
  }

  predicate OfVersion2(entries: seq<Entry>) {
    forall i :: 0 <= i < |entries| ==>
      var e := entries[i]; e.version == 2 && Fits(e.eventType) && Fits(e.payload) && Fits(e.commit)
  }

  predicate SameEntry(a: Entry, b: Entry) {
    a.eventType == b.eventType && a.payload == b.payload && a.hash == b.hash && a.commit == b.commit
  }

  predicate SameChain(a: seq<Entry>, b: seq<Entry>) {
    |a| == |b| && forall i :: 0 <= i < |a| ==> SameEntry(a[i], b[i])
  }

  /** What entry i's hash is taken of. */
  function PreimageAt(entries: seq<Entry>, i: nat): Bytes
    requires i < |entries|
  {
    PreimageOf(entries[i], HashBefore(entries, i))
  }

  /** An entry of each chain: what their hashes are taken of differs, and the hashes do not. */
  predicate Collide(sha: Digest, a: seq<Entry>, b: seq<Entry>, i: nat, j: nat) {
    i < |a| && j < |b| && PreimageAt(a, i) != PreimageAt(b, j) && sha(PreimageAt(a, i)) == sha(PreimageAt(b, j))
  }

  lemma HashesFit(sha: Digest, entries: seq<Entry>, i: nat)
    requires Digests(sha) && Verifies(sha, entries) && i <= |entries|
    ensures Fits(HashBefore(entries, i))
    ensures if i == 0 then HashBefore(entries, i) == [] else |HashBefore(entries, i)| == 64
  {
    if i > 0 {
      assert Intact(sha, entries, i - 1);
    }
  }

  /** Entries of two chains that carry one hash collide, or their hashes are taken of the same bytes. */
  lemma SameInput(sha: Digest, a: seq<Entry>, b: seq<Entry>, i: nat, j: nat)
    requires Verifies(sha, a) && Verifies(sha, b) && i < |a| && j < |b| && a[i].hash == b[j].hash
    ensures Collide(sha, a, b, i, j) || PreimageAt(a, i) == PreimageAt(b, j)
  {
    hide PreimageOf;
    assert Intact(sha, a, i) && Intact(sha, b, j);
  }

  lemma SameInputSameEntry(sha: Digest, a: seq<Entry>, b: seq<Entry>, i: nat, j: nat)
    requires Digests(sha) && OfVersion2(a) && OfVersion2(b) && Verifies(sha, a) && Verifies(sha, b)
    requires i < |a| && j < |b| && a[i].hash == b[j].hash && PreimageAt(a, i) == PreimageAt(b, j)
    ensures SameEntry(a[i], b[j]) && HashBefore(a, i) == HashBefore(b, j)
  {
    HashesFit(sha, a, i);
    HashesFit(sha, b, j);
    var d, e := a[i], b[j];
    hide Verifies, PreimageV2;
    PreimageDetermines(d.eventType, d.payload, HashBefore(a, i), d.commit,
                       e.eventType, e.payload, HashBefore(b, j), e.commit);
  }

  /** The first n entries of the one chain and the first m of the other are the same. */
  predicate SameUpTo(a: seq<Entry>, n: nat, b: seq<Entry>, m: nat) {
    n == m && n <= |a| && m <= |b| && forall k :: 0 <= k < n ==> SameEntry(a[k], b[k])
  }

  lemma SameUpToNext(a: seq<Entry>, n: nat, b: seq<Entry>, m: nat)
    requires 0 < n && 0 < m && SameUpTo(a, n - 1, b, m - 1) && n <= |a| && m <= |b| && SameEntry(a[n - 1], b[m - 1])
    ensures SameUpTo(a, n, b, m)
  {}

  /** Both chains start here, or neither does. */
  lemma BothStart(sha: Digest, a: seq<Entry>, n: nat, b: seq<Entry>, m: nat)
    requires Digests(sha) && Verifies(sha, a) && Verifies(sha, b)
    requires n <= |a| && m <= |b| && HashBefore(a, n) == HashBefore(b, m)
    ensures n == 0 || m == 0 ==> SameUpTo(a, n, b, m)
    ensures 0 < n && 0 < m ==> a[n - 1].hash == b[m - 1].hash
  {
    HashesFit(sha, a, n);
    HashesFit(sha, b, m);
  }

  /** One step back along both chains: two entries under one hash collide, or are the same and follow the same hash. */
  lemma OneBack(sha: Digest, a: seq<Entry>, b: seq<Entry>, i: nat, j: nat)
    requires Digests(sha) && OfVersion2(a) && OfVersion2(b) && Verifies(sha, a) && Verifies(sha, b)
    requires i < |a| && j < |b| && a[i].hash == b[j].hash
    ensures Collide(sha, a, b, i, j) || (SameEntry(a[i], b[j]) && HashBefore(a, i) == HashBefore(b, j))
  {
    hide Verifies, Digests, OfVersion2, PreimageAt, SameEntry, Collide, HashBefore;
    SameInput(sha, a, b, i, j);
    if PreimageAt(a, i) == PreimageAt(b, j) {
      SameInputSameEntry(sha, a, b, i, j);
    }
  }

  lemma {:induction false} HashBindsUpTo(sha: Digest, a: seq<Entry>, n: nat, b: seq<Entry>, m: nat)
    returns (i: nat, j: nat)
    requires Digests(sha) && OfVersion2(a) && OfVersion2(b) && Verifies(sha, a) && Verifies(sha, b)
    requires n <= |a| && m <= |b| && HashBefore(a, n) == HashBefore(b, m)
    ensures SameUpTo(a, n, b, m) || Collide(sha, a, b, i, j)
  {
    hide Verifies, Digests, OfVersion2, Collide, SameEntry, SameUpTo, HashBefore;
    i, j := n, m;
    BothStart(sha, a, n, b, m);
    if 0 < n && 0 < m {
      i, j := n - 1, m - 1;
      OneBack(sha, a, b, i, j);
      if !Collide(sha, a, b, i, j) {
        i, j := HashBindsUpTo(sha, a, n - 1, b, m - 1);
        if SameUpTo(a, n - 1, b, m - 1) {
          SameUpToNext(a, n, b, m);
        }
      }
    }
  }

  /** Two chains of version 2 entries that both verify and end in the same hash have the same length and, at every
      position, the same type, payload, hash and commit; or else an entry of the one and an entry of the other
      collide. */
  lemma LastHashBinds(sha: Digest, a: seq<Entry>, b: seq<Entry>) returns (i: nat, j: nat)
    requires Digests(sha) && OfVersion2(a) && OfVersion2(b) && Verifies(sha, a) && Verifies(sha, b)
    requires HashBefore(a, |a|) == HashBefore(b, |b|)
    ensures SameChain(a, b) || Collide(sha, a, b, i, j)
  {
    hide Verifies, Digests, OfVersion2, Collide;
    i, j := HashBindsUpTo(sha, a, |a|, b, |b|);
  }

  // ----- version 1 -----

  predicate OfVersion1(entries: seq<Entry>) {
    forall i :: 0 <= i < |entries| ==> entries[i].version in {0, 1}
  }

  /** All that a version 1 hash covers. */
  predicate SameParts(a: Entry, b: Entry) {
    a.payload == b.payload && a.hash == b.hash && a.commit == b.commit
  }

  predicate SamePartsThroughout(a: seq<Entry>, b: seq<Entry>) {
    |a| == |b| && forall i :: 0 <= i < |a| ==> SameParts(a[i], b[i])
  }

  predicate SameLengths(a: seq<Entry>, b: seq<Entry>) {
    |a| == |b| && forall i :: 0 <= i < |a| ==> |a[i].payload| == |b[i].payload|
  }

  /** The version 1 preimage, with a previous hash of known length, determines its parts exactly when the payloads
      are as long. */
  lemma Version1Splits(p: Bytes, h: Bytes, c: Bytes, p': Bytes, h': Bytes, c': Bytes)
    requires PreimageV1(p, h, c) == PreimageV1(p', h', c') && |h| == |h'|
    ensures p == p' && h == h' && c == c' <==> |p| == |p'|
  {
    var x, y := PreimageV1(p, h, c), PreimageV1(p', h', c');
    assert x[..|p|] == p && x[|p|..|p| + |h|] == h && x[|p| + |h|..] == c;
    assert y[..|p'|] == p' && y[|p'|..|p'| + |h'|] == h' && y[|p'| + |h'|..] == c';
  }

  lemma SameInputSameParts(sha: Digest, a: seq<Entry>, b: seq<Entry>, i: nat)
    requires Digests(sha) && OfVersion1(a) && OfVersion1(b) && Verifies(sha, a) && Verifies(sha, b)
    requires i < |a| && i < |b| && a[i].hash == b[i].hash && PreimageAt(a, i) == PreimageAt(b, i)
    requires |a[i].payload| == |b[i].payload|
    ensures SameParts(a[i], b[i]) && HashBefore(a, i) == HashBefore(b, i)
  {
    HashesFit(sha, a, i);
    HashesFit(sha, b, i);
    hide Verifies, PreimageV1;
    Version1Splits(a[i].payload, HashBefore(a, i), a[i].commit, b[i].payload, HashBefore(b, i), b[i].commit);
  }

  lemma {:induction false} PartsUpTo(sha: Digest, a: seq<Entry>, b: seq<Entry>, n: nat) returns (i: nat)
    requires Digests(sha) && OfVersion1(a) && OfVersion1(b) && Verifies(sha, a) && Verifies(sha, b) && SameLengths(a, b)
    requires n <= |a| && HashBefore(a, n) == HashBefore(b, n)
    ensures (forall k :: 0 <= k < n ==> SameParts(a[k], b[k])) || Collide(sha, a, b, i, i)
  {
    i := 0;
    hide Verifies, Digests, OfVersion1, PreimageOf, Collide;
    if n > 0 {
      SameInput(sha, a, b, n - 1, n - 1);
      if PreimageAt(a, n - 1) == PreimageAt(b, n - 1) {
        SameInputSameParts(sha, a, b, n - 1);
        i := PartsUpTo(sha, a, b, n - 1);
      } else {
        i := n - 1;
      }
    }
  }

  /** Two chains of version 1 entries that both verify and end in the same hash agree in payload, hash and commit at
      every position exactly when they are as long and so are their payloads, position by position; or else their
      entries at one position collide. */
  lemma Version1BindsIff(sha: Digest, a: seq<Entry>, b: seq<Entry>) returns (i: nat)
    requires Digests(sha) && OfVersion1(a) && OfVersion1(b) && Verifies(sha, a) && Verifies(sha, b)
    requires HashBefore(a, |a|) == HashBefore(b, |b|)
    ensures (SamePartsThroughout(a, b) <==> SameLengths(a, b)) || Collide(sha, a, b, i, i)
  {
    i := 0;
    hide Verifies, Digests, OfVersion1, Collide;
    if SameLengths(a, b) {
      i := PartsUpTo(sha, a, b, |a|);
    }
  }

  /** The type of a version 1 entry is not covered: a chain verifies with any other in its place exactly when it did
      before. */
  lemma RelabelledVersion1(sha: Digest, entries: seq<Entry>, k: nat, eventType: Bytes)
    requires k < |entries| && entries[k].version in {0, 1}
    ensures Verifies(sha, entries[k := entries[k].(eventType := eventType)]) <==> Verifies(sha, entries)
  {
    var other := entries[k := entries[k].(eventType := eventType)];
    forall i | 0 <= i < |entries| ensures Intact(sha, other, i) <==> Intact(sha, entries, i) {
      assert HashBefore(other, i) == HashBefore(entries, i);
    }
    hide Intact;
  }

  /** The type of a version 2 entry is: a chain that still verifies with another in its place has two inputs with one
      digest. */
  lemma RelabelledVersion2(sha: Digest, entries: seq<Entry>, k: nat, eventType: Bytes)
    requires Digests(sha) && OfVersion2(entries) && Fits(eventType) && Verifies(sha, entries)
    requires k < |entries| && entries[k].eventType != eventType
    ensures var other := entries[k := entries[k].(eventType := eventType)];
            Verifies(sha, other) <==> Collide(sha, entries, other, k, k)
  {
    var e, other := entries[k], entries[k := entries[k].(eventType := eventType)];
    HashesFit(sha, entries, k);
    TypesDiffer(e, HashBefore(entries, k), eventType);
    RelabelledAt(sha, entries, k, eventType);
    forall i | 0 <= i < |entries| && i != k ensures Intact(sha, other, i) {
      assert Intact(sha, entries, i);
      OthersUntouched(sha, entries, k, eventType, i);
    }
    hide Intact, Collide;
    assert Verifies(sha, other) ==> Intact(sha, other, k);
  }

  lemma OthersUntouched(sha: Digest, entries: seq<Entry>, k: nat, eventType: Bytes, i: nat)
    requires k < |entries| && i < |entries| && i != k
    ensures Intact(sha, entries[k := entries[k].(eventType := eventType)], i) <==> Intact(sha, entries, i)
  {
    hide PreimageOf;
    assert HashBefore(entries[k := entries[k].(eventType := eventType)], i) == HashBefore(entries, i);
  }

  lemma RelabelledAt(sha: Digest, entries: seq<Entry>, k: nat, eventType: Bytes)
    requires k < |entries| && entries[k].version == 2 && Intact(sha, entries, k)
    requires var e := entries[k];
             PreimageOf(e, HashBefore(entries, k)) != PreimageOf(e.(eventType := eventType), HashBefore(entries, k))
    ensures var other := entries[k := entries[k].(eventType := eventType)];
            Intact(sha, other, k) <==> Collide(sha, entries, other, k, k)
  {
    hide PreimageOf;
    assert HashBefore(entries[k := entries[k].(eventType := eventType)], k) == HashBefore(entries, k);
  }

  lemma TypesDiffer(e: Entry, prev: Bytes, eventType: Bytes)
    requires e.version == 2 && Fits(e.eventType) && Fits(e.payload) && Fits(e.commit) && Fits(prev) && Fits(eventType)
    requires e.eventType != eventType
    ensures PreimageOf(e, prev) != PreimageOf(e.(eventType := eventType), prev)
  {
    hide PreimageV2;
    if PreimageOf(e, prev) == PreimageOf(e.(eventType := eventType), prev) {
      PreimageDetermines(e.eventType, e.payload, prev, e.commit, eventType, e.payload, prev, e.commit);
    }
  }

  /** The lengths are needed: version 1 joins its parts without separators. */
  lemma Version1DoesNotBind(sha: Digest)
    ensures var h := sha([1, 2]);
            var a, b := [Entry(1, [7], [1, 2], h, [], 1)], [Entry(1, [8], [1], h, [2], 1)];
            Verifies(sha, a) && Verifies(sha, b) && HashBefore(a, 1) == HashBefore(b, 1) && !SameChain(a, b)
  {
    assert PreimageV1([1, 2], [], []) == [1, 2] && PreimageV1([1], [], [2]) == [1, 2];
  }
}
