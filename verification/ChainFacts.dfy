/** What the replay's state says about the raw chain it read: each field against the entries themselves. */
module ChainFacts {
  import opened Wrappers
  import opened Events
  import opened Replay

  // ----- entries of a kind -----

  predicate Prepares(e: Event) { e.CommitPrepared? }
  predicate Grants(e: Event) { e.DeliveryAuthorized? }
  predicate Resumes(e: Event) { e.RunResumed? }
  predicate Checks(e: Event) { e.PhaseChecked? }
  predicate Offers(e: Event) { e.AwaitingReview? }
  predicate SetsPolicy(e: Event) { e.PolicySnapshot? }
  predicate SetsPath(e: Event) { e.RunPath? }

  /** Some entry from position k (counted from 0) on is of this kind. */
  ghost predicate SeenFrom(es: seq<Entry>, k: nat, p: Event -> bool) {
    exists i :: k <= i < |es| && p(es[i].event)
  }

  ghost predicate Seen(es: seq<Entry>, p: Event -> bool) {
    SeenFrom(es, 0, p)
  }

  /** Position k holds the last entry of this kind. */
  ghost predicate LastOf(es: seq<Entry>, k: nat, p: Event -> bool) {
    k < |es| && p(es[k].event) && !SeenFrom(es, k + 1, p)
  }

  lemma SeenGrows(es: seq<Entry>, k: nat, p: Event -> bool)
    requires 0 < |es|
    ensures SeenFrom(es, k, p) <==> SeenFrom(es[..|es| - 1], k, p) || (k < |es| && p(es[|es| - 1].event))
  {}

  lemma LastGrows(es: seq<Entry>, k: nat, p: Event -> bool)
    requires 0 < |es|
    ensures k < |es| - 1 && !p(es[|es| - 1].event) ==> (LastOf(es, k, p) <==> LastOf(es[..|es| - 1], k, p))
    ensures p(es[|es| - 1].event) ==> LastOf(es, |es| - 1, p)
  {}

  // ----- what an accepted chain holds -----

  /** The first entry, and no other, is run_bound, and every payload can be read. */
  lemma {:induction false} BoundFirst(es: seq<Entry>)
    requires Accepts(es)
    ensures es != [] ==> es[0].event == RunBound(FoldOf(es).bound)
    ensures forall k :: 0 < k < |es| ==> !es[k].event.RunBound?
    ensures forall k :: 0 <= k < |es| ==> !es[k].event.Unreadable?
  {
    if es != [] {
      hide LaunchEndRefusal, AcknowledgeRefusal, DecisionRefusal, VoteRefusal, AuthorizeRefusal, LaunchRefusal;
      BoundFirst(es[..|es| - 1]);
    }
  }

  /** The loop's "is it over" variables say what the chain holds. */
  lemma {:induction false} SealFacts(es: seq<Entry>)
    requires Accepts(es)
    ensures FoldOf(es).seals.agentEnded <==> Seen(es, Prepares)
    ensures FoldOf(es).seals.ended != Unsealed <==> Seen(es, EndsChain)
    ensures FoldOf(es).authorized.Some? <==> Seen(es, Grants)
    ensures FoldOf(es).seals.sealed != Unsealed <==> Seen(es, Prepares) || Seen(es, EndsChain) || Seen(es, Grants)
  {
    hide Refusal, NextBoard, NextVotes, NextLaunches, NextChecks, NextReview, NextTip, NextSegment, NextClock;
    if es != [] {
      SealFacts(es[..|es| - 1]);
      SeenGrows(es, 0, Prepares);
      SeenGrows(es, 0, EndsChain);
      SeenGrows(es, 0, Grants);
    }
  }

  /** The segment starts at run_bound or at the last run_resumed, and its run_path is the last one since. */
  lemma {:induction false} SegmentFacts(es: seq<Entry>)
    requires Accepts(es) && es != []
    ensures var s := FoldOf(es).segment.start;
            1 <= s <= |es| && !SeenFrom(es, s, Resumes) && (s == 1 || es[s - 1].event.RunResumed?)
            && (FoldOf(es).segment.path.Some? <==> SeenFrom(es, s, SetsPath))
    ensures |es| > 0 && Resumes(es[|es| - 1].event) ==> FoldOf(es).segment.start == |es|
  {
    hide Refusal, NextBoard, NextVotes, NextLaunches, NextChecks, NextReview, NextAuthorized, NextSeals, NextTip,
        NextClock;
    BoundFirst(es);
    var before, e := es[..|es| - 1], es[|es| - 1];
    if before == [] {
      assert es[0] == e && Run(before) == Ok(START);
    } else {
      SegmentFacts(before);
      var s := FoldOf(before).segment.start;
      SeenGrows(es, s, Resumes);
      SeenGrows(es, s, SetsPath);
      assert s > 1 ==> es[s - 1] == before[s - 1];
    }
    var segment := if before == [] then START.segment else FoldOf(before).segment;
    assert FoldOf(es).segment == NextSegment(segment, |es|, e.event);
  }

  /** The checks the fold rests on are the last that ran, and it knows whether a review was offered since. */
  lemma {:induction false} CheckFacts(es: seq<Entry>)
    requires Accepts(es)
    ensures var c := FoldOf(es).checks;
            && c.index <= |es|
            && (c.index == 0 ==> !Seen(es, Checks))
            && (c.index > 0 ==> LastOf(es, c.index - 1, Checks) && es[c.index - 1].event == PhaseChecked(c.check)
                                && es[c.index - 1].hash == c.entry)
            && (c.reviewedSince <==> SeenFrom(es, c.index, Offers))
  {
    hide Refusal, NextBoard, NextVotes, NextLaunches, NextReview, NextAuthorized, NextSeals, NextTip, NextSegment,
        NextClock;
    if es != [] {
      var before := es[..|es| - 1];
      CheckFacts(before);
      var c := FoldOf(before).checks;
      SeenGrows(es, 0, Checks);
      SeenGrows(es, c.index, Offers);
      if c.index > 0 {
        LastGrows(es, c.index - 1, Checks);
      }
      LastGrows(es, 0, Checks);
    }
  }

  /** The position of the last policy_snapshot, |es| when there is none. */
  ghost function LastPolicy(es: seq<Entry>): (k: nat)
    ensures k <= |es|
    ensures k < |es| ==> LastOf(es, k, SetsPolicy)
    ensures k == |es| ==> !Seen(es, SetsPolicy)
  {
    if es == [] then 0
    else
      var before := es[..|es| - 1];
      SeenGrows(es, 0, SetsPolicy);
      LastGrows(es, LastPolicy(before), SetsPolicy);
      if SetsPolicy(es[|es| - 1].event) then |es| - 1
      else if LastPolicy(before) == |before| then |es| else LastPolicy(before)
  }

  /** The policy is the last one the chain holds. */
  lemma {:induction false} PolicyFacts(es: seq<Entry>)
    requires Accepts(es)
    ensures var p := FoldOf(es).policy; var k := LastPolicy(es);
            if k == |es| then p.None? else es[k].event.PolicySnapshot? && p == Some(es[k].event.policy)
  {
    if es != [] {
      PolicyFacts(es[..|es| - 1]);
    }
  }

  // ----- what closes the proposals -----

  /** A proposal's request is accepted exactly until a commit is prepared or a delivery authorized: no other end of
      the chain refuses it. */
  lemma RequestAcceptedIff(es: seq<Entry>, e: Entry)
    requires Accepts(es) && es != [] && e.event.YieldRequest?
    ensures Accepts(es + [e]) <==> !Seen(es, Prepares) && !Seen(es, Grants)
  {
    SealFacts(es);
    hide Run;
    RunSnoc(es, e);
  }

  /** certificate_issued is such an end: a request after it is accepted. */
  lemma RequestAfterCertificate() returns (es: seq<Entry>)
    ensures |es| == 3 && Accepts(es) && es[0].event.RunBound? && es[1].event.CertificateIssued? &&
        es[2].event.YieldRequest?
  {
    var bound := Entry(RunBound(Bound("b", "t", [])), "h1", 0);
    var certified := Entry(CertificateIssued(CommitNote("c", [])), "h2", 0);
    var request := Entry(YieldRequest(FileEdit), "h3", 0);
    es := [] + [bound] + [certified] + [request];
    StartAccepts(bound);
    var before := [bound] + [certified];
    assert es == before + [request] && [bound] + [certified] == before;
    RunSnoc([bound], certified);
    SealFacts([bound]);
    assert !Seen([bound], Grants);
    hide Run, Refusal, Next;
    RequestAcceptedIff(before, request);
  }

  lemma StartAccepts(e: Entry)
    requires e.event.RunBound?
    ensures Accepts([e])
  {
    assert Run([]) == Ok(START) && [] + [e] == [e];
    RunSnoc([], e);
    hide Run, Next;
  }
}
