/** The outcome of a run: one of seven, from the chain alone. */
module Outcomes {
  import opened Wrappers
  import opened Events
  import opened Replay
  import opened ChainFacts
  import M = Matching

  datatype Outcome =
    | Running
    | AwaitsReview
    | Blocked
    | RunFailed
    | Delivered
    | DeliveredIncomplete
    | NoChange

  const MAX_LOST_LAUNCHES := 3

  function LostLaunches(ls: seq<Launch>): nat {
    if ls == [] then 0 else LostLaunches(ls[..|ls| - 1]) + if Lost(ls[|ls| - 1]) then 1 else 0
  }

  /** The last launch is lost, and nobody acknowledged it. */
  predicate LaunchParked(ls: seq<Launch>) {
    |ls| > 0 && Lost(ls[|ls| - 1]) && !ls[|ls| - 1].acked
  }

  /** A run that nothing prepared, authorized or ended, and whose last segment did not end by itself, waits for its
      owner when the last launch is lost and nobody acknowledged it, or when too many launches were lost. */
  predicate LostLaunch(f: Fold) {
    && f.seals.sealed == Unsealed
    && (f.segment.path.None? || f.segment.path.value.StatusKilled?)
    && f.launches != []
    && (LostLaunches(f.launches) >= MAX_LOST_LAUNCHES || LaunchParked(f.launches))
  }

  /** An owner's approved decision took the proposal over. */
  predicate Adopted(ds: seq<Decision>, seqNo: int) {
    exists d :: d in ds && d.ruling.approved && d.ruling.adopts > 0 && d.ruling.adopts == seqNo
  }

  predicate AnyParked(ds: seq<Decision>) {
    exists d :: d in ds && d.ruling.source == "parked" && !Adopted(ds, d.ruling.seqNo)
  }

  predicate AnyApproved(ds: seq<Decision>) {
    exists d :: d in ds && IsApproval(d.ruling)
  }

  predicate FinalRejected(ds: seq<Decision>, start: nat) {
    exists d :: d in ds && Final(d.ruling) && !d.ruling.approved && d.index > start
  }

  /** How a segment that ended by itself stands. */
  function EndedOutcome(f: Fold, status: Status): Outcome {
    var ds := f.board.decisions;
    var checkFailed := f.checks.index > f.segment.start && !f.checks.check.passed;
    match status
    case StatusFailed => RunFailed
    case StatusKilled => Blocked
    case StatusSuccess => if AnyParked(ds) then Blocked else if !AnyApproved(ds) then NoChange else RunFailed
    case NoStatus =>
      if f.segment.halted then Blocked
      else if checkFailed || FinalRejected(ds, f.segment.start) then RunFailed
      else if AnyParked(ds) then Blocked
      else RunFailed
    case OtherStatus(_) => RunFailed
  }

  /** The outcome is delivered wherever a commit is reported; else it is that of a review offered since the last
      segment started; else that of a lost launch or of the end of the last segment. */
  function OutcomeOf(f: Fold): Outcome {
    if f.tip.commit != "" then
      (if f.tip.evidence != [] then DeliveredIncomplete else Delivered)
    else if f.review.Some? && f.review.value.index > f.segment.start then
      (match f.review.value.decided
       case Rejected => RunFailed
       case Accepted => if f.review.value.offer.files == map[] then RunFailed else AwaitsReview
       case Waiting => AwaitsReview)
    else if LostLaunch(f) then Blocked
    else if f.segment.path.None? then Running
    else if f.seals.sealed == SealPrepared || f.seals.sealed == SealAuthorized then Blocked
    else EndedOutcome(f, f.segment.path.value)
  }

  predicate IsDelivered(o: Outcome) {
    o.Delivered? || o.DeliveredIncomplete?
  }

  // ----- delivered -----

  /** The last entry that reports the run's commit names one. */
  ghost predicate NamesOne(es: seq<Entry>, k: nat) {
    LastOf(es, k, ReportsCommit) && ReportedCommit(es[k].event) != ""
  }

  lemma {:induction false} CommitFacts(es: seq<Entry>)
    requires Accepts(es)
    ensures !Seen(es, ReportsCommit) ==> FoldOf(es).tip.commit == ""
    ensures forall k: nat :: LastOf(es, k, ReportsCommit) ==> FoldOf(es).tip.commit == ReportedCommit(es[k].event)
    ensures Seen(es, ReportsCommit) ==> exists k: nat :: LastOf(es, k, ReportsCommit)
  {
    hide Refusal, NextBoard, NextLaunches, NextReview, NextVotes, NextChecks, NextClock, NextSegment;
    if es != [] {
      var before, e := es[..|es| - 1], es[|es| - 1];
      CommitFacts(before);
      SeenGrows(es, 0, ReportsCommit);
      LastGrows(es, 0, ReportsCommit);
      forall k: nat | LastOf(es, k, ReportsCommit) ensures FoldOf(es).tip.commit == ReportedCommit(es[k].event) {
        LastGrows(es, k, ReportsCommit);
        if k < |before| {
          assert LastOf(before, k, ReportsCommit) by {
            assert !SeenFrom(es, k + 1, ReportsCommit);
            assert !ReportsCommit(e.event);
          }
        }
      }
      if Seen(before, ReportsCommit) && !ReportsCommit(e.event) {
        var k: nat :| LastOf(before, k, ReportsCommit);
        LastGrows(es, k, ReportsCommit);
      }
    }
  }

  /** A run is delivered exactly when the last event that reports its commit names one. */
  lemma DeliveredExactly(es: seq<Entry>)
    requires Accepts(es)
    ensures IsDelivered(OutcomeOf(FoldOf(es))) <==> exists k: nat :: NamesOne(es, k)
  {
    CommitFacts(es);
    hide Run, LostLaunch, EndedOutcome;
    if IsDelivered(OutcomeOf(FoldOf(es))) {
      var k: nat :| LastOf(es, k, ReportsCommit);
      assert NamesOne(es, k);
    }
  }

  /** A delivered run stays delivered, when every event that reports a commit names one. */
  lemma DeliveredStays(es: seq<Entry>, k: nat)
    requires Accepts(es) && k <= |es| && Accepts(es[..k]) && IsDelivered(OutcomeOf(FoldOf(es[..k])))
    requires forall j :: k <= j < |es| && ReportsCommit(es[j].event) ==> ReportedCommit(es[j].event) != ""
    ensures IsDelivered(OutcomeOf(FoldOf(es)))
  {
    DeliveredExactly(es[..k]);
    DeliveredExactly(es);
    CommitFacts(es);
    hide Run, OutcomeOf;
    var i: nat :| NamesOne(es[..k], i);
    assert ReportsCommit(es[i].event);
    var j: nat :| LastOf(es, j, ReportsCommit);
    if j < k {
      assert es[..k][j] == es[j];
      assert i <= j && j <= i;
    }
    assert NamesOne(es, j);
  }

  /** The condition is needed: a report of missing evidence that names no commit takes a delivery back. */
  lemma EmptyReportUndelivers() returns (es: seq<Entry>)
    ensures |es| == 3 && Accepts(es) && Accepts(es[..2])
    ensures IsDelivered(OutcomeOf(FoldOf(es[..2]))) && !IsDelivered(OutcomeOf(FoldOf(es)))
  {
    var e1 := Entry(RunBound(Bound("b", "t", [])), "h1", 0);
    var e2 := Entry(CertificateIssued(CommitNote("c", [])), "h2", 0);
    var e3 := Entry(EvidenceFailed(CommitNote("", ["no ledger"])), "h3", 0);
    es := [] + [e1] + [e2] + [e3];
    assert es[..2] == [] + [e1] + [e2];
    assert Run([]) == Ok(START);
    RunSnoc([], e1);
    RunSnoc([] + [e1], e2);
    RunSnoc([] + [e1] + [e2], e3);
    hide Run, DecisionRefusal, VoteRefusal, LaunchRefusal, AuthorizeRefusal, LostLaunch, EndedOutcome, NextBoard,
        NextReview;
  }

  // ----- reviews -----

  /** The owner's last answer from position k (counted from 0) on. */
  function LastAnswer(es: seq<Entry>, k: nat): Answer {
    if |es| <= k then Waiting
    else
      match es[|es| - 1].event
      case ReviewAccepted => Accepted
      case ReviewRejected => Rejected
      case _ => LastAnswer(es[..|es| - 1], k)
  }

  /** The review is the last one offered, with the check it names, as the last answer since left it. */
  ghost predicate ReviewOf(es: seq<Entry>, r: Option<Review>) {
    match r
    case None => !Seen(es, Offers)
    case Some(v) =>
      && 1 <= v.index && LastOf(es, v.index - 1, Offers)
      && es[v.index - 1].event.offer == v.offer && es[v.index - 1].hash == v.entry
      && v.checked == NamedCheck(es[..v.index - 1], v.offer.phaseChecked)
      && v.decided == LastAnswer(es, v.index)
  }

  lemma OfferGrows(before: seq<Entry>, e: Entry, r: Option<Review>)
    requires Offers(e.event)
    ensures ReviewOf(before + [e], NextReview(before, r, |before| + 1, e))
  {
    hide NamedCheck;
    var es := before + [e];
    LastGrows(es, 0, Offers);
    hide SeenFrom;
    assert es[..|before|] == before;
  }

  lemma AnswerGrows(before: seq<Entry>, e: Entry, r: Option<Review>)
    requires ReviewOf(before, r) && !Offers(e.event)
    ensures ReviewOf(before + [e], NextReview(before, r, |before| + 1, e))
  {
    hide NamedCheck, SeenFrom;
    var es := before + [e];
    assert es[..|es| - 1] == before;
    SeenGrows(es, 0, Offers);
    if r.Some? {
      LastGrows(es, r.value.index - 1, Offers);
      assert es[..r.value.index - 1] == before[..r.value.index - 1];
    }
  }

  lemma ReviewGrows(before: seq<Entry>, e: Entry, r: Option<Review>)
    requires ReviewOf(before, r)
    ensures ReviewOf(before + [e], NextReview(before, r, |before| + 1, e))
  {
    hide ReviewOf, NextReview;
    if Offers(e.event) {
      OfferGrows(before, e, r);
    } else {
      AnswerGrows(before, e, r);
    }
  }

  lemma {:induction false} ReviewFacts(es: seq<Entry>)
    requires Accepts(es)
    ensures ReviewOf(es, FoldOf(es).review)
  {
    hide Refusal, ReviewOf, NextReview, NextBoard, NextLaunches, NextVotes, NextChecks, NextClock, NextSegment, NextTip,
        NextSeals;
    if es == [] {
      NoReview();
    } else {
      ReviewFacts(es[..|es| - 1]);
      ReviewGrows(es[..|es| - 1], es[|es| - 1], FoldOf(es[..|es| - 1]).review);
      assert es[..|es| - 1] + [es[|es| - 1]] == es;
    }
  }

  lemma NoReview()
    ensures ReviewOf([], None)
  {}

  /** Position k holds the last phase_checked entry with this hash among the first n entries. */
  predicate LastNamed(es: seq<Entry>, n: nat, hash: string, k: nat) {
    k < n <= |es| && ChecksAs(es[k], hash) && forall j :: k < j < n ==> !ChecksAs(es[j], hash)
  }

  /** c is what that entry found, and there is none exactly when there is no such entry. */
  ghost predicate IsCheckNamed(es: seq<Entry>, n: nat, hash: string, c: Option<Check>) {
    && (forall k: nat :: LastNamed(es, n, hash, k) ==> c == Some(es[k].event.check))
    && (c.Some? ==> exists k: nat :: LastNamed(es, n, hash, k))
  }

  lemma {:induction false} NamedCheckIs(es: seq<Entry>, n: nat, hash: string)
    requires n <= |es|
    ensures IsCheckNamed(es, n, hash, NamedCheck(es[..n], hash))
  {
    if n > 0 {
      assert es[..n][..n - 1] == es[..n - 1];
      if ChecksAs(es[n - 1], hash) {
        assert LastNamed(es, n, hash, n - 1);
      } else {
        NamedCheckIs(es, n - 1, hash);
        forall k: nat ensures LastNamed(es, n, hash, k) <==> LastNamed(es, n - 1, hash, k) {}
        if NamedCheck(es[..n - 1], hash).Some? {
          var k: nat :| LastNamed(es, n - 1, hash, k);
          assert LastNamed(es, n, hash, k);
        }
      }
    }
  }

  /** The history's review is the last one offered, and its check is what the last phase_checked entry before the
      offer with the hash it names found; none exactly when no entry before the offer is that one. */
  lemma ReviewNamesCheck(es: seq<Entry>)
    requires Accepts(es) && FoldOf(es).review.Some?
    ensures var v := FoldOf(es).review.value;
            && 1 <= v.index && LastOf(es, v.index - 1, Offers) && es[v.index - 1].event == AwaitingReview(v.offer)
            && IsCheckNamed(es, v.index - 1, v.offer.phaseChecked, v.checked)
  {
    ReviewFacts(es);
    var v := FoldOf(es).review.value;
    NamedCheckIs(es, v.index - 1, v.offer.phaseChecked);
    hide Run, NamedCheck, SeenFrom, LastAnswer, IsCheckNamed;
  }

  /** Position v holds the last offered review, no segment started since, and the answer leaves it open: none yet, or
      yes to a change that is not empty, not delivered so far. */
  ghost predicate OpenReview(es: seq<Entry>, v: nat) {
    && LastOf(es, v, Offers) && !SeenFrom(es, v, Resumes)
    && match LastAnswer(es, v + 1)
       case Waiting => true
       case Accepted => es[v].event.offer.files != map[]
       case Rejected => false
  }

  /** A review is of the last segment exactly when no resume follows it. */
  lemma ReviewSegment(es: seq<Entry>, v: nat)
    requires Accepts(es) && es != [] && v < |es| && Offers(es[v].event)
    ensures v + 1 > FoldOf(es).segment.start <==> !SeenFrom(es, v, Resumes)
  {
    SegmentFacts(es);
    BoundFirst(es);
    hide Run;
    var s := FoldOf(es).segment.start;
    assert v > 0 && (s > 1 ==> Resumes(es[s - 1].event));
  }

  lemma LastOffer(es: seq<Entry>, v: nat, w: nat)
    requires LastOf(es, v, Offers) && LastOf(es, w, Offers)
    ensures v == w
  {}

  /** "Awaiting review" is given exactly when no commit is reported and a review offered after the last run_resumed
      is open. */
  lemma AwaitsThisSegmentsReview(es: seq<Entry>)
    requires Accepts(es) && es != []
    ensures OutcomeOf(FoldOf(es)).AwaitsReview? <==>
              !(exists k: nat :: NamesOne(es, k)) && exists v: nat :: OpenReview(es, v)
  {
    DeliveredExactly(es);
    ReviewFacts(es);
    var f := FoldOf(es);
    AwaitsWhen(f);
    if f.review.Some? {
      ReviewSegment(es, f.review.value.index - 1);
    }
    hide Run, NamesOne, LastAnswer, OutcomeOf, SeenFrom;
    if OutcomeOf(f).AwaitsReview? {
      assert OpenReview(es, f.review.value.index - 1);
    }
    if v: nat :| OpenReview(es, v) {
      OffersSeen(es, v);
      LastOffer(es, v, f.review.value.index - 1);
    }
  }

  lemma OffersSeen(es: seq<Entry>, v: nat)
    requires LastOf(es, v, Offers)
    ensures Seen(es, Offers)
  {}

  lemma AwaitsWhen(f: Fold)
    ensures OutcomeOf(f).AwaitsReview? <==>
              && !IsDelivered(OutcomeOf(f)) && f.review.Some? && f.review.value.index > f.segment.start
              && (f.review.value.decided.Waiting?
                  || (f.review.value.decided.Accepted? && f.review.value.offer.files != map[]))
  {
    hide LostLaunch;
  }

  // ----- running and blocked -----

  /** This position's entry was followed by a resume. */
  ghost predicate Superseded(es: seq<Entry>, k: nat) {
    SeenFrom(es, k + 1, Resumes)
  }

  /** "Running" is given exactly when no commit is reported, no lost launch waits for its owner, and every review
      that was offered and every end of a segment was followed by a resume. */
  lemma RunningExactly(es: seq<Entry>)
    requires Accepts(es) && es != []
    ensures OutcomeOf(FoldOf(es)).Running? <==>
              && !(exists k: nat :: NamesOne(es, k)) && !LostLaunch(FoldOf(es))
              && forall k: nat :: k < |es| && (Offers(es[k].event) || SetsPath(es[k].event)) ==> Superseded(es, k)
  {
    DeliveredExactly(es);
    ReviewFacts(es);
    SegmentFacts(es);
    BoundFirst(es);
    hide Run, NamesOne, LostLaunch, LastAnswer, OutcomeOf, NamedCheck;
    var f := FoldOf(es);
    RunningWhen(f);
    var s := f.segment.start;
    forall k: nat | k < |es| && (Offers(es[k].event) || SetsPath(es[k].event)) ensures Superseded(es, k) <==> k < s {
      SupersededBefore(es, k);
    }
    hide Superseded;
    if f.segment.path.Some? {
      var k: nat :| s <= k < |es| && SetsPath(es[k].event);
      assert !Superseded(es, k);
    }
    if f.review.Some? {
      var k := f.review.value.index - 1;
      assert Offers(es[k].event);
      forall i | k < i < |es| ensures !Offers(es[i].event) {}
    }
  }

  lemma SupersededBefore(es: seq<Entry>, k: nat)
    requires Accepts(es) && es != [] && k < |es| && (Offers(es[k].event) || SetsPath(es[k].event))
    ensures Superseded(es, k) <==> k < FoldOf(es).segment.start
  {
    SegmentFacts(es);
    BoundFirst(es);
    hide Run;
    var s := FoldOf(es).segment.start;
    if k < s {
      assert s > 1 && Resumes(es[s - 1].event) && k != s - 1;
    }
  }

  lemma RunningWhen(f: Fold)
    ensures OutcomeOf(f).Running? <==>
              && !IsDelivered(OutcomeOf(f)) && !(f.review.Some? && f.review.value.index > f.segment.start)
              && !LostLaunch(f) && f.segment.path.None?
  {
    hide LostLaunch;
  }

  lemma {:induction false} SealWithoutEnd(es: seq<Entry>)
    requires Accepts(es) && !Seen(es, EndsChain)
    ensures FoldOf(es).seals.sealed in [Unsealed, SealAuthorized, SealPrepared]
  {
    hide Refusal, NextBoard, NextLaunches, NextReview, NextVotes, NextChecks, NextClock, NextSegment, NextTip;
    if es != [] {
      SeenGrows(es, 0, EndsChain);
      SealWithoutEnd(es[..|es| - 1]);
    }
  }

  /** A delivery that was prepared or authorized and not finished is never reported as failed or as no change, unless
      its owner decides a review of the last segment: the run is running, or blocked until recovery finishes it. */
  lemma UnfinishedDeliveryWaits(es: seq<Entry>)
    requires Accepts(es) && (Seen(es, Prepares) || Seen(es, Grants)) && !Seen(es, EndsChain)
    requires forall k: nat :: k < |es| && Offers(es[k].event) ==> Superseded(es, k)
    ensures var o := OutcomeOf(FoldOf(es)); o.Running? || o.Blocked? || IsDelivered(o)
    ensures OutcomeOf(FoldOf(es)).Running? ==> FoldOf(es).segment.path.None?
  {
    SealWithoutEnd(es);
    SealFacts(es);
    ReviewFacts(es);
    hide Run, LostLaunch, LastAnswer, EndedOutcome;
    var f := FoldOf(es);
    if f.review.Some? {
      var k := f.review.value.index - 1;
      assert Superseded(es, k);
      ReviewSegment(es, k);
      OfferIsNoResume(es, k);
    }
  }

  lemma OfferIsNoResume(es: seq<Entry>, k: nat)
    requires k < |es| && Offers(es[k].event) && Superseded(es, k)
    ensures SeenFrom(es, k, Resumes)
  {}

  // ----- no change -----

  /** "No change" is given only when nothing was ever approved and nothing is parked: no approved file change is on
      the chain. */
  lemma NoChangeApprovedNothing(es: seq<Entry>)
    requires Accepts(es) && OutcomeOf(FoldOf(es)).NoChange?
    ensures forall k :: 0 <= k < |es| && es[k].event.YieldDecided? ==> !IsApproval(es[k].event.ruling)
    ensures FoldOf(es).segment.path == Some(StatusSuccess) && !AnyParked(FoldOf(es).board.decisions)
  {
    hide Run, LostLaunch;
    forall k | 0 <= k < |es| && es[k].event.YieldDecided? ensures !IsApproval(es[k].event.ruling) {
      var d := M.DecisionAt(es, k);
    }
  }
}
