/** When a run is running, and when nothing changed: each in terms of the chain's entries alone. */
module ChainOutcomes {
  import opened Wrappers
  import opened Events
  import opened Replay
  import opened ChainFacts
  import opened Outcomes
  import M = Matching
  import L = Launches
  import Q = Queries

  // ----- the last segment -----

  /** Every review that was offered was followed by a resume. */
  ghost predicate NoReviewNow(es: seq<Entry>) {
    forall k: nat :: k < |es| && Offers(es[k].event) ==> Superseded(es, k)
  }

  lemma ReviewIsPast(es: seq<Entry>)
    requires Accepts(es) && es != []
    ensures var f := FoldOf(es); NoReviewNow(es) <==> !(f.review.Some? && f.review.value.index > f.segment.start)
  {
    ReviewFacts(es);
    var f := FoldOf(es);
    hide Run, LastAnswer;
    forall k: nat | k < |es| && Offers(es[k].event) ensures Superseded(es, k) <==> k + 1 <= f.segment.start {
      ReviewSegment(es, k);
      OfferFirst(es, k);
    }
    if f.review.Some? {
      var v := f.review.value.index - 1;
      forall k: nat | k < |es| && Offers(es[k].event) ensures k <= v {
        NotAfter(es, v, k);
      }
    }
  }

  lemma OfferFirst(es: seq<Entry>, k: nat)
    requires k < |es| && Offers(es[k].event)
    ensures SeenFrom(es, k, Resumes) <==> Superseded(es, k)
  {}

  lemma NotAfter(es: seq<Entry>, v: nat, k: nat)
    requires LastOf(es, v, Offers) && k < |es| && Offers(es[k].event)
    ensures k <= v
  {}

  /** The last run_path, and no resume after it. */
  ghost predicate EndsNow(es: seq<Entry>, k: nat, status: Status) {
    LastOf(es, k, SetsPath) && es[k].event == RunPath(status) && !Superseded(es, k)
  }

  lemma EndGrows(es: seq<Entry>, k: nat, status: Status)
    requires es != [] && k < |es| - 1 && EndsNow(es[..|es| - 1], k, status)
    requires !SetsPath(es[|es| - 1].event) && !Resumes(es[|es| - 1].event)
    ensures EndsNow(es, k, status)
  {
    SeenGrows(es, k + 1, SetsPath);
    SeenGrows(es, k + 1, Resumes);
  }

  /** How the last segment ended, if it did, is what its last run_path says. */
  lemma {:induction false} PathIs(es: seq<Entry>) returns (k: nat)
    requires Accepts(es)
    ensures FoldOf(es).segment.path.Some? ==> EndsNow(es, k, FoldOf(es).segment.path.value)
  {
    k := 0;
    hide Refusal, NextBoard, NextVotes, NextLaunches, NextChecks, NextReview, NextAuthorized, NextSeals, NextTip,
        NextClock;
    if es != [] {
      var before, e := es[..|es| - 1], es[|es| - 1];
      k := PathIs(before);
      BoundFirst(es);
      assert FoldOf(es).segment == NextSegment(FoldOf(before).segment, |es|, e.event);
      assert before == [] ==> e == es[0];
      hide Run;
      if SetsPath(e.event) {
        k := |es| - 1;
      } else if FoldOf(es).segment.path.Some? {
        EndGrows(es, k, FoldOf(es).segment.path.value);
      }
    }
  }

  lemma OneEnd(es: seq<Entry>, j: nat, a: Status, k: nat, b: Status)
    requires EndsNow(es, j, a) && EndsNow(es, k, b)
    ensures a == b
  {}

  lemma EndFacts(es: seq<Entry>, j: nat, status: Status)
    requires EndsNow(es, j, status)
    ensures j < |es| && SetsPath(es[j].event) && forall i :: j < i < |es| ==> !Resumes(es[i].event)
  {}

  lemma SeenHere(es: seq<Entry>, s: nat, j: nat)
    requires s <= j < |es| && SetsPath(es[j].event)
    ensures SeenFrom(es, s, SetsPath)
  {}

  lemma EndsAfterStart(es: seq<Entry>, j: nat, status: Status)
    requires Accepts(es) && es != [] && EndsNow(es, j, status)
    ensures FoldOf(es).segment.path.Some?
  {
    hide Run, EndsNow, SeenFrom;
    SegmentFacts(es);
    EndFacts(es, j, status);
    BoundFirst(es);
    var s := FoldOf(es).segment.start;
    assert s > 1 ==> Resumes(es[s - 1].event);
    SeenHere(es, s, j);
  }

  /** The last segment ended so exactly when its last run_path says so. */
  lemma EndedExactly(es: seq<Entry>, status: Status)
    requires Accepts(es) && es != []
    ensures FoldOf(es).segment.path == Some(status) <==> exists k: nat :: EndsNow(es, k, status)
  {
    var k := PathIs(es);
    hide Run, EndsNow;
    if j: nat :| EndsNow(es, j, status) {
      EndsAfterStart(es, j, status);
      OneEnd(es, j, status, k, FoldOf(es).segment.path.value);
    }
  }

  // ----- a delivery that is not finished -----

  /** Nothing ended the chain before a commit was prepared. */
  ghost predicate PreparedFirst(es: seq<Entry>) {
    forall j :: 0 <= j < |es| && EndsChain(es[j].event) ==> Seen(es[..j], Prepares)
  }

  /** A commit was prepared or a delivery authorized, and not delivered otherwise. */
  ghost predicate Unfinished(es: seq<Entry>) {
    (Seen(es, Prepares) || Seen(es, Grants)) && PreparedFirst(es)
  }

  lemma PreparedFirstGrows(es: seq<Entry>)
    requires es != []
    ensures var before, e := es[..|es| - 1], es[|es| - 1].event;
            PreparedFirst(es) <==> PreparedFirst(before) && (EndsChain(e) ==> Seen(before, Prepares))
  {
    var before := es[..|es| - 1];
    forall j | 0 <= j < |before| ensures es[..j] == before[..j] && es[j] == before[j] {}
    hide SeenFrom;
    if PreparedFirst(before) && (EndsChain(es[|es| - 1].event) ==> Seen(before, Prepares)) {
      forall j | 0 <= j < |es| && EndsChain(es[j].event) ensures Seen(es[..j], Prepares) {
        if j < |before| {
          assert EndsChain(before[j].event);
        }
      }
    }
    if PreparedFirst(es) {
      forall j | 0 <= j < |before| && EndsChain(before[j].event) ensures Seen(before[..j], Prepares) {
        assert EndsChain(es[j].event);
      }
    }
  }

  lemma {:induction false} SealsAs(es: seq<Entry>)
    requires Accepts(es)
    ensures var s := FoldOf(es).seals.sealed;
            && (s == SealAuthorized <==> Seen(es, Grants) && !Seen(es, Prepares) && !Seen(es, EndsChain))
            && (s == SealPrepared <==> Seen(es, Prepares) && PreparedFirst(es))
            && (s == Unsealed <==> !Seen(es, Grants) && !Seen(es, Prepares) && !Seen(es, EndsChain))
  {
    hide Refusal, NextBoard, NextVotes, NextLaunches, NextChecks, NextReview, NextAuthorized, NextTip, NextSegment,
        NextClock;
    if es != [] {
      SealsAs(es[..|es| - 1]);
      SeenGrows(es, 0, Prepares);
      SeenGrows(es, 0, EndsChain);
      SeenGrows(es, 0, Grants);
      PreparedFirstGrows(es);
      EndsUnprepared(es[..|es| - 1]);
      hide PreparedFirst, SeenFrom;
    }
  }

  lemma EndsUnprepared(es: seq<Entry>)
    ensures PreparedFirst(es) && Seen(es, EndsChain) ==> Seen(es, Prepares)
    ensures !Seen(es, EndsChain) ==> PreparedFirst(es)
  {}

  // ----- no change -----

  /** An owner's approved decision on the chain took the proposal over. */
  ghost predicate TakenOver(es: seq<Entry>, n: int) {
    n > 0 && exists j ::
        0 <= j < |es| && es[j].event.YieldDecided? && es[j].event.ruling.approved && es[j].event.ruling.adopts == n
  }

  ghost predicate NothingApproved(es: seq<Entry>) {
    forall k :: 0 <= k < |es| && es[k].event.YieldDecided? ==> !IsApproval(es[k].event.ruling)
  }

  ghost predicate NothingParked(es: seq<Entry>) {
    forall k :: 0 <= k < |es| && es[k].event.YieldDecided? && es[k].event.ruling.source == "parked" ==>
        TakenOver(es, es[k].event.ruling.seqNo)
  }

  lemma AdoptedIsTakenOver(es: seq<Entry>, n: int)
    requires Accepts(es)
    ensures Adopted(FoldOf(es).board.decisions, n) <==> TakenOver(es, n)
  {
    if n > 0 {
      Q.ParkedUntilAdopted(es, n);
    }
  }

  lemma ApprovedOnChain(es: seq<Entry>)
    requires Accepts(es)
    ensures AnyApproved(FoldOf(es).board.decisions) <==> !NothingApproved(es)
  {
    var ds := FoldOf(es).board.decisions;
    Q.DecisionsMirror(es);
    hide Run;
    if d :| d in ds && IsApproval(d.ruling) {
      assert es[d.index - 1].event == YieldDecided(d.ruling);
    }
    hide Q.Mirrors;
    if k :| 0 <= k < |es| && es[k].event.YieldDecided? && IsApproval(es[k].event.ruling) {
      var d := M.DecisionAt(es, k);
    }
  }

  lemma ParkedOnChain(es: seq<Entry>)
    requires Accepts(es)
    ensures AnyParked(FoldOf(es).board.decisions) <==> !NothingParked(es)
  {
    var ds := FoldOf(es).board.decisions;
    Q.DecisionsMirror(es);
    hide Run, Adopted, TakenOver;
    if d :| d in ds && d.ruling.source == "parked" && !Adopted(ds, d.ruling.seqNo) {
      assert es[d.index - 1].event == YieldDecided(d.ruling);
      AdoptedIsTakenOver(es, d.ruling.seqNo);
    }
    hide Q.Mirrors;
    if k :|
         && 0 <= k < |es|
         && es[k].event.YieldDecided?
         && es[k].event.ruling.source == "parked"
         && !TakenOver(es, es[k].event.ruling.seqNo)
    {
      var d := M.DecisionAt(es, k);
      AdoptedIsTakenOver(es, d.ruling.seqNo);
    }
  }

  lemma NoChangeWhen(f: Fold)
    ensures OutcomeOf(f).NoChange? <==>
              && !IsDelivered(OutcomeOf(f)) && !(f.review.Some? && f.review.value.index > f.segment.start)
              && f.segment.path == Some(StatusSuccess) && f.seals.sealed != SealPrepared &&
                  f.seals.sealed != SealAuthorized
              && !AnyParked(f.board.decisions) && !AnyApproved(f.board.decisions)
  {
    hide AnyParked, AnyApproved, LostLaunches, LaunchParked;
  }

  /** "No change" is given exactly when no commit is reported, every review offered was followed by a resume, the
      last segment ended in success, no delivery is unfinished, nothing was approved and nothing is parked. */
  lemma NoChangeExactly(es: seq<Entry>)
    requires Accepts(es) && es != []
    ensures OutcomeOf(FoldOf(es)).NoChange? <==>
              && !(exists k: nat :: NamesOne(es, k)) && NoReviewNow(es) &&
                  (exists k: nat :: EndsNow(es, k, StatusSuccess))
              && !Unfinished(es) && NothingApproved(es) && NothingParked(es)
  {
    DeliveredExactly(es);
    ReviewIsPast(es);
    EndedExactly(es, StatusSuccess);
    SealsAs(es);
    EndsUnprepared(es);
    ApprovedOnChain(es);
    ParkedOnChain(es);
    NoChangeWhen(FoldOf(es));
    hide Run, OutcomeOf, NamesOne, NoReviewNow, EndsNow, NothingApproved, NothingParked, AnyParked, AnyApproved,
        SeenFrom;
    hide PreparedFirst;
  }

  // ----- lost launches -----

  /** Entry k claims a launch that no launch_ended on the chain ends in a known way. */
  ghost predicate LostClaim(es: seq<Entry>, k: nat) {
    && k < |es| && es[k].event.LaunchClaimed?
    && forall j :: 0 <= j < |es| && es[j].event.LaunchEnded? && es[j].event.end.attempt == es[k].event.claim.attempt ==>
         LostOutcome(es[j].event.end.outcome)
  }

  predicate Acks(e: Event, c: Claim) {
    e == LaunchAcknowledged(c) || (e.RunResumed? && e.resumed.ackUnknown == c.attempt)
  }

  /** The launch of entry k was acknowledged: an entry names it, or a resume took it for acknowledged. */
  ghost predicate AckedClaim(es: seq<Entry>, k: nat)
    requires k < |es| && es[k].event.LaunchClaimed?
  {
    exists j :: k < j < |es| && Acks(es[j].event, es[k].event.claim)
  }

  predicate IsLaunch(ls: seq<Launch>, k: nat) {
    exists i :: 0 <= i < |ls| && ls[i].index == k + 1
  }

  /** Each claim is a launch. */
  ghost predicate ClaimsKept(es: seq<Entry>, ls: seq<Launch>) {
    forall k {:trigger IsLaunch(ls, k)} :: 0 <= k < |es| && es[k].event.LaunchClaimed? ==> IsLaunch(ls, k)
  }

  ghost predicate AckedAs(es: seq<Entry>, ls: seq<Launch>, i: nat)
    requires i < |ls|
  {
    L.Claimed(es, ls, i) && (ls[i].acked <==> AckedClaim(es, ls[i].index - 1))
  }

  /** Each launch is claimed, later than the one before it, and acknowledged as the chain says. */
  ghost predicate AcksKept(es: seq<Entry>, ls: seq<Launch>) {
    && (forall i :: 0 <= i < |ls| ==> AckedAs(es, ls, i))
    && Rising(ls)
  }

  predicate Rising(ls: seq<Launch>) {
    forall i, j :: 0 <= i < j < |ls| ==> ls[i].index < ls[j].index
  }

  lemma AckedLater(before: seq<Entry>, e: Entry, k: nat)
    requires k < |before| && before[k].event.LaunchClaimed?
    ensures AckedClaim(before + [e], k) <==> AckedClaim(before, k) || Acks(e.event, before[k].event.claim)
  {
    var es := before + [e];
    assert es[k] == before[k] && es[|before|] == e;
    forall j | 0 <= j < |before| ensures es[j] == before[j] {}
    if AckedClaim(before, k) {
      var j :| k < j < |before| && Acks(before[j].event, before[k].event.claim);
      assert Acks(es[j].event, es[k].event.claim);
    }
    if AckedClaim(es, k) {
      var j :| k < j < |es| && Acks(es[j].event, es[k].event.claim);
      assert j < |before| ==> Acks(before[j].event, before[k].event.claim);
    }
  }

  lemma AckGrows(before: seq<Entry>, e: Entry, ls: seq<Launch>, i: nat)
    requires L.LaunchRule(ls, e.event) && i < |ls| && AckedAs(before, ls, i) && ls[|ls| - 1].claim.attempt == |ls|
    ensures var next := NextLaunches(ls, |before| + 1, e);
            i < |next| && next[i].index == ls[i].index && AckedAs(before + [e], next, i)
  {
    var k := ls[i].index - 1;
    L.LaunchKept(before, e, ls, i);
    AckedLater(before, e, k);
    assert (before + [e])[k] == before[k];
    hide AckedClaim;
  }

  lemma NewLaunch(before: seq<Entry>, e: Entry, ls: seq<Launch>, i: nat)
    requires L.LaunchRule(ls, e.event) && |ls| <= i < |NextLaunches(ls, |before| + 1, e)|
    ensures var next := NextLaunches(ls, |before| + 1, e);
            i == |ls| && |next| == |ls| + 1 && next[i].index == |before| + 1 && AckedAs(before + [e], next, i)
  {
    assert (before + [e])[|before|] == e;
  }

  lemma AcksGrow(before: seq<Entry>, e: Entry, ls: seq<Launch>)
    requires L.LaunchRule(ls, e.event) && AcksKept(before, ls)
    ensures AcksKept(before + [e], NextLaunches(ls, |before| + 1, e))
  {
    var es, next := before + [e], NextLaunches(ls, |before| + 1, e);
    assert ls != [] ==> AckedAs(before, ls, |ls| - 1);
    forall i | 0 <= i < |ls| ensures ls[i].index <= |before| {
      assert AckedAs(before, ls, i);
    }
    hide NextLaunches, L.LaunchRule, AckedClaim;
    forall i | 0 <= i < |next| ensures AckedAs(es, next, i) && next[i].index == if i < |ls| then ls[i].index else |es| {
      if i < |ls| {
        AckGrows(before, e, ls, i);
      } else {
        NewLaunch(before, e, ls, i);
      }
    }
    if |next| > |ls| {
      NewLaunch(before, e, ls, |next| - 1);
    }
    hide AckedAs;
  }

  lemma ClaimsGrow(before: seq<Entry>, e: Entry, ls: seq<Launch>)
    requires L.LaunchRule(ls, e.event) && ClaimsKept(before, ls)
    ensures ClaimsKept(before + [e], NextLaunches(ls, |before| + 1, e))
  {
    var es, next := before + [e], NextLaunches(ls, |before| + 1, e);
    forall k | 0 <= k < |es| && es[k].event.LaunchClaimed? ensures IsLaunch(next, k) {
      if k < |before| {
        assert es[k] == before[k] && IsLaunch(ls, k);
        var i :| 0 <= i < |ls| && ls[i].index == k + 1;
        L.LaunchKept(before, e, ls, i);
        assert next[i].index == k + 1;
      } else {
        assert next[|ls|].index == k + 1;
      }
    }
  }

  /** The launches are the chain's claims, each acknowledged as the chain says. */
  lemma {:induction false} LaunchesOnChain(es: seq<Entry>)
    requires Accepts(es)
    ensures ClaimsKept(es, FoldOf(es).launches) && AcksKept(es, FoldOf(es).launches)
  {
    hide ClaimsKept, AcksKept, Refusal, Next;
    if es == [] {
      NothingClaimed();
    } else {
      var before, e := es[..|es| - 1], es[|es| - 1];
      LaunchesOnChain(before);
      L.LaunchEffect(before, FoldOf(before), e);
      ClaimsGrow(before, e, FoldOf(before).launches);
      AcksGrow(before, e, FoldOf(before).launches);
      assert before + [e] == es;
    }
  }

  lemma NothingClaimed()
    ensures ClaimsKept([], []) && AcksKept([], [])
  {}

  lemma LostAsClaimed(es: seq<Entry>, ls: seq<Launch>, i: nat)
    requires L.LaunchesOf(es, ls) && L.EndsOf(es, ls) && i < |ls|
    ensures 1 <= ls[i].index <= |es| && (Lost(ls[i]) <==> LostClaim(es, ls[i].index - 1))
  {
    assert L.Claimed(es, ls, i);
    var k := ls[i].index - 1;
    forall j | 0 <= j < |es| && es[j].event.LaunchEnded? && es[j].event.end.attempt == i + 1
      ensures es[j].event.end.outcome == ls[i].outcome
    {
      assert L.EndNames(es[j].event.end, ls, j);
    }
    if !ls[i].outcome.NoOutcome? {
      assert L.EndedBy(es, ls[i].index, i + 1);
      var j :| ls[i].index <= j < |es| && es[j].event.LaunchEnded? && es[j].event.end.attempt == i + 1;
    }
    hide L.EndsOf, L.LaunchesOf;
  }

  /** The claims whose launches have no established end. */
  ghost function LostClaims(es: seq<Entry>): set<int> {
    set k | 0 <= k < |es| && LostClaim(es, k)
  }

  function LostAmong(ls: seq<Launch>, n: nat): set<int>
    requires n <= |ls|
  {
    set i | 0 <= i < n && Lost(ls[i]) :: ls[i].index - 1
  }

  lemma AmongGrows(ls: seq<Launch>, n: nat)
    requires 0 < n <= |ls| && Rising(ls)
    ensures LostAmong(ls, n) == LostAmong(ls, n - 1) + if Lost(ls[n - 1]) then {ls[n - 1].index - 1} else {}
    ensures ls[n - 1].index - 1 !in LostAmong(ls, n - 1)
  {
    hide Lost;
  }

  lemma NoneLostYet(ls: seq<Launch>)
    ensures LostAmong(ls, 0) == {} && LostLaunches(ls[..0]) == 0
  {}

  lemma LostSnoc(ls: seq<Launch>, n: nat)
    requires 0 < n <= |ls|
    ensures LostLaunches(ls[..n]) == LostLaunches(ls[..n - 1]) + if Lost(ls[n - 1]) then 1 else 0
  {
    assert ls[..n][..n - 1] == ls[..n - 1] && ls[..n][n - 1] == ls[n - 1];
  }

  lemma {:induction false} LostAreCounted(ls: seq<Launch>, n: nat)
    requires n <= |ls| && Rising(ls)
    ensures |LostAmong(ls, n)| == LostLaunches(ls[..n])
  {
    hide Lost, LostAmong, LostLaunches, Rising;
    if n == 0 {
      NoneLostYet(ls);
    } else {
      AmongGrows(ls, n);
      LostSnoc(ls, n);
      LostAreCounted(ls, n - 1);
    }
  }

  /** What the replay's launches say of the chain. */
  ghost predicate Says(es: seq<Entry>, ls: seq<Launch>) {
    L.LaunchesOf(es, ls) && L.EndsOf(es, ls) && ClaimsKept(es, ls) && AcksKept(es, ls)
  }

  lemma LaunchesSay(es: seq<Entry>)
    requires Accepts(es)
    ensures Says(es, FoldOf(es).launches)
  {
    hide Run, L.LaunchesOf, L.EndsOf, ClaimsKept, AcksKept;
    L.LaunchesNumberedAndEnded(es);
    LaunchesOnChain(es);
  }

  lemma SaysLost(es: seq<Entry>, ls: seq<Launch>, i: nat)
    requires Says(es, ls) && i < |ls|
    ensures 1 <= ls[i].index <= |es| && (Lost(ls[i]) <==> LostClaim(es, ls[i].index - 1))
  {
    hide ClaimsKept, AcksKept, Lost, LostClaim, L.EndsOf, L.LaunchesOf;
    LostAsClaimed(es, ls, i);
  }

  lemma SaysClaim(es: seq<Entry>, ls: seq<Launch>, k: nat) returns (i: nat)
    requires Says(es, ls) && k < |es| && es[k].event.LaunchClaimed?
    ensures i < |ls| && ls[i].index == k + 1
  {
    hide AcksKept, L.EndsOf, L.LaunchesOf;
    assert IsLaunch(ls, k);
    i :| 0 <= i < |ls| && ls[i].index == k + 1;
  }

  lemma ClaimIsAmong(es: seq<Entry>, ls: seq<Launch>, k: nat)
    requires Says(es, ls) && k < |es| && LostClaim(es, k)
    ensures k in LostAmong(ls, |ls|)
  {
    hide Says, Lost;
    var i := SaysClaim(es, ls, k);
    SaysLost(es, ls, i);
  }

  lemma AmongIsClaim(es: seq<Entry>, ls: seq<Launch>, k: int)
    requires Says(es, ls) && k in LostAmong(ls, |ls|)
    ensures 0 <= k < |es| && LostClaim(es, k)
  {
    hide Says, Lost, LostClaim;
    var i :| 0 <= i < |ls| && Lost(ls[i]) && ls[i].index - 1 == k;
    SaysLost(es, ls, i);
  }

  /** The count of lost launches is the count of lost claims. */
  lemma LostOnChain(es: seq<Entry>, ls: seq<Launch>)
    requires Says(es, ls)
    ensures LostLaunches(ls) == |LostClaims(es)|
  {
    assert Rising(ls);
    hide Says, Rising, Lost, LostLaunches, LostAmong, LostClaim;
    LostAreCounted(ls, |ls|);
    assert ls[..|ls|] == ls;
    forall k | k in LostClaims(es) ensures k in LostAmong(ls, |ls|) {
      ClaimIsAmong(es, ls, k);
    }
    forall k | k in LostAmong(ls, |ls|) ensures k in LostClaims(es) {
      AmongIsClaim(es, ls, k);
    }
    assert LostAmong(ls, |ls|) == LostClaims(es);
  }

  predicate Claims(e: Event) { e.LaunchClaimed? }

  /** The last claim's launch has no established end, and nobody acknowledged it. */
  ghost predicate LastIsLost(es: seq<Entry>) {
    exists k: nat :: LastOf(es, k, Claims) && LostClaim(es, k) && !AckedClaim(es, k)
  }

  lemma LastClaim(es: seq<Entry>, ls: seq<Launch>)
    requires Says(es, ls) && ls != []
    ensures var k := ls[|ls| - 1].index - 1;
            0 <= k < |es| && LastOf(es, k, Claims) && (ls[|ls| - 1].acked <==> AckedClaim(es, k))
  {
    assert AckedAs(es, ls, |ls| - 1) && Rising(ls);
    hide Says, AckedClaim;
    var k := ls[|ls| - 1].index - 1;
    forall j | 0 <= j < |es| && Claims(es[j].event) ensures j <= k {
      var i := SaysClaim(es, ls, j);
    }
  }

  lemma AnyClaim(es: seq<Entry>, ls: seq<Launch>)
    requires Says(es, ls)
    ensures ls == [] <==> !Seen(es, Claims)
  {
    hide Says;
    if j :| 0 <= j < |es| && Claims(es[j].event) {
      var i := SaysClaim(es, ls, j);
    }
    if ls != [] {
      LastClaim(es, ls);
    }
  }

  lemma ParkedLaunchOnChain(es: seq<Entry>, ls: seq<Launch>)
    requires Says(es, ls)
    ensures LaunchParked(ls) <==> LastIsLost(es)
  {
    hide Says, Lost, AckedClaim, LostClaim, SeenFrom;
    AnyClaim(es, ls);
    if ls != [] {
      LastClaim(es, ls);
      SaysLost(es, ls, |ls| - 1);
    }
    if k: nat :| LastOf(es, k, Claims) && LostClaim(es, k) && !AckedClaim(es, k) {
      LastSeen(es, k);
      LastIsOne(es, k, ls[|ls| - 1].index - 1);
    }
  }

  lemma LastSeen(es: seq<Entry>, k: nat)
    requires LastOf(es, k, Claims)
    ensures Seen(es, Claims)
  {}

  lemma LastIsOne(es: seq<Entry>, j: nat, k: nat)
    requires LastOf(es, j, Claims) && LastOf(es, k, Claims)
    ensures j == k
  {}

  /** A run waits for its owner: nothing prepared, authorized or ended it, its last segment did not end but by being
      stopped, and three launches are lost, or the last is and nobody acknowledged it. */
  ghost predicate WaitsForOwner(es: seq<Entry>) {
    && !Seen(es, Prepares) && !Seen(es, Grants) && !Seen(es, EndsChain)
    && (forall k: nat, status :: EndsNow(es, k, status) ==> status == StatusKilled)
    && Seen(es, Claims) && (|LostClaims(es)| >= MAX_LOST_LAUNCHES || LastIsLost(es))
  }

  lemma StoppedOnChain(es: seq<Entry>)
    requires Accepts(es) && es != []
    ensures var path := FoldOf(es).segment.path;
            path.None? || path.value.StatusKilled? <==>
                forall k: nat, status :: EndsNow(es, k, status) ==> status == StatusKilled
  {
    var path := FoldOf(es).segment.path;
    if path.Some? {
      EndedExactly(es, path.value);
    }
    hide Run, EndsNow;
    forall k: nat, status | EndsNow(es, k, status) ensures path == Some(status) {
      EndedExactly(es, status);
    }
  }

  lemma WaitsOnChain(es: seq<Entry>)
    requires Accepts(es) && es != []
    ensures LostLaunch(FoldOf(es)) <==> WaitsForOwner(es)
  {
    SealsAs(es);
    StoppedOnChain(es);
    LaunchesSay(es);
    hide Run, Says, EndsNow, LostClaims, LastIsLost, LaunchParked, LostLaunches, SeenFrom, PreparedFirst;
    AnyClaim(es, FoldOf(es).launches);
    LostOnChain(es, FoldOf(es).launches);
    ParkedLaunchOnChain(es, FoldOf(es).launches);
  }

  /** "Running" is given exactly when no commit is reported, every review offered and every end of a segment was
      followed by a resume, and no lost launch waits for its owner. */
  lemma RunningOnChain(es: seq<Entry>)
    requires Accepts(es) && es != []
    ensures OutcomeOf(FoldOf(es)).Running? <==>
              && !(exists k: nat :: NamesOne(es, k)) && !WaitsForOwner(es)
              && forall k: nat :: k < |es| && (Offers(es[k].event) || SetsPath(es[k].event)) ==> Superseded(es, k)
  {
    RunningExactly(es);
    WaitsOnChain(es);
    hide Run, OutcomeOf, LostLaunch, WaitsForOwner, NamesOne, Superseded;
  }
}
