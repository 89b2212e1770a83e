/** The replay as the loop it is: one walk over the chain that keeps what each event says, case by case, and stops at
    the first refusal. */
module ReplayLoop {
  import opened Wrappers
  import opened Events
  import opened Replay

  /** Why the decision is not one of its panel, with the table of their votes on its request built in one pass. */
  method PanelDecisionRefused(models: seq<string>, votes: seq<Vote>, r: Ruling) returns (why: Option<PanelFault>)
    ensures why == PanelRefusal(models, votes, r)
  {
    if models == [] || !(VALIDATOR_PREFIX <= r.source) {
      return None;
    }
    if r.source != PanelName(models) {
      return Some(OtherPanel);
    }
    var voted: map<string, Verdict> := map[];
    for i := 0 to |votes|
      invariant forall m :: m in voted <==> VotedBy(votes[..i], r.requestEntry, m).Some?
      invariant forall m :: m in voted ==> VotedBy(votes[..i], r.requestEntry, m) == Some(voted[m])
    {
      assert votes[..i + 1][..i] == votes[..i];
      if votes[i].ballot.requestEntry == r.requestEntry {
        voted := voted[votes[i].ballot.model := votes[i].ballot.verdict];
      }
    }
    assert votes[..|votes|] == votes;
    var k := 0;
    while k < |models|
      invariant k <= |models|
      invariant MissingVote(models, votes, r) == MissingVote(models[k..], votes, r)
    {
      if models[k] !in voted {
        return Some(NoVote(models[k]));
      }
      if voted[models[k]] != Wanted(r) {
        return Some(Disagrees(models[k]));
      }
      k := k + 1;
    }
    return None;
  }

  /** The first waiting request that the decision matches; |pending| when none does. */
  method RequestOf(pending: seq<Request>, r: Ruling) returns (at: nat)
    ensures at == FindRequest(pending, r)
  {
    at := 0;
    while
      && at < |pending|
      && !(if r.requestEntry != "" then pending[at].entry == r.requestEntry else pending[at].action == r.action)
      invariant at <= |pending| && forall j :: 0 <= j < at ==> !Matches(pending[j], r)
    {
      at := at + 1;
    }
  }

  method Waits(pending: seq<Request>, requestEntry: string) returns (found: bool)
    ensures found <==> exists q :: q in pending && q.entry == requestEntry
  {
    for i := 0 to |pending|
      invariant forall k :: 0 <= k < i ==> pending[k].entry != requestEntry
    {
      if pending[i].entry == requestEntry {
        assert pending[i] in pending;
        return true;
      }
    }
    return false;
  }

  method HasVoted(votes: seq<Vote>, b: Ballot) returns (found: bool)
    ensures found <==> exists v :: v in votes && v.ballot.requestEntry == b.requestEntry && v.ballot.model == b.model
  {
    for i := 0 to |votes|
      invariant forall k :: 0 <= k < i ==>
          votes[k].ballot.requestEntry != b.requestEntry || votes[k].ballot.model != b.model
    {
      if votes[i].ballot.requestEntry == b.requestEntry && votes[i].ballot.model == b.model {
        assert votes[i] in votes;
        return true;
      }
    }
    return false;
  }

  /** Why a vote is refused, with its conditions tested in turn. */
  method BallotRefused(models: seq<string>, pending: seq<Request>, votes: seq<Vote>, b: Ballot)
    returns (why: Option<VoteFault>)
    ensures why == VoteRefusal(models, pending, votes, b)
  {
    if |models| == 0 {
      return Some(NoPanel);
    }
    if b.model !in models {
      return Some(NotOnPanel);
    }
    if b.verdict != VoteApprove && b.verdict != VoteReject && b.verdict != VoteError {
      return Some(BadVerdict);
    }
    var waits := Waits(pending, b.requestEntry);
    if !waits {
      return Some(NoSuchRequest);
    }
    var voted := HasVoted(votes, b);
    return if voted then Some(VotedTwice) else None;
  }

  /** The first phase_checked entry with this hash; |before| when there is none. */
  method CheckNamed(before: seq<Entry>, hash: string) returns (at: nat)
    ensures at == FirstCheck(before, hash)
  {
    at := 0;
    while at < |before| && !(before[at].event.PhaseChecked? && before[at].hash == hash)
      invariant at <= |before| && forall j :: 0 <= j < at ==> !ChecksAs(before[j], hash)
    {
      at := at + 1;
    }
  }

  /** Why an authorization is refused, with its conditions tested in turn. */
  method AuthorizationRefused(before: seq<Entry>, bound: Bound, policy: Option<Policy>, c: Checks, g: Grant)
    returns (why: Option<GrantFault>)
    ensures why == GrantRefusal(before, bound, policy, c, g)
  {
    var named := CheckNamed(before, g.phaseChecked);
    hide FirstCheck;
    if named == |before| {
      return Some(NamesNoCheck);
    }
    if named + 1 != c.index {
      return Some(NotLatestCheck);
    }
    if c.check.tree != g.tree {
      return Some(OtherTree);
    }
    if !c.check.passed {
      return Some(CheckFailed);
    }
    if c.reviewedSince {
      return Some(ReviewOffered);
    }
    if g.mode != MODE_POLICY {
      return Some(OtherMode);
    }
    if bound.terms == "" || g.terms != bound.terms {
      return Some(OtherTerms);
    }
    if policy.None? || !policy.value.signed {
      return Some(UnsignedPolicy);
    }
    return if g.policy != policy.value.digest then Some(OtherPolicy) else None;
  }

  /** What the check with this hash found: the last such entry's, though a chain of distinct hashes holds one. */
  method CheckFound(before: seq<Entry>, hash: string) returns (found: Option<Check>)
    ensures found == NamedCheck(before, hash)
  {
    found := None;
    for i := 0 to |before|
      invariant found == NamedCheck(before[..i], hash)
    {
      assert before[..i + 1][..i] == before[..i];
      if before[i].event.PhaseChecked? && before[i].hash == hash {
        found := Some(before[i].event.check);
      }
    }
    assert before[..|before|] == before;
  }

  /** An entry whose payload cannot be read: refused for that, unless its type alone already is. */
  method ReadUnreadable(f: Fold, n: nat, k: Kind) returns (why: Fault)
    ensures Some(why) == Also(EarlyRefusal(f, n, k), Some(PayloadUnreadable))
  {
    match k {
      case KRunBound =>
        if n > 1 {
          return BoundTwice;
        }
      case KRunResumed | KLaunchClaimed =>
        if f.seals.ended != Unsealed || f.seals.agentEnded {
          return FollowsEnd;
        }
        if |f.launches| > 0 && f.launches[|f.launches| - 1].outcome == NoOutcome {
          return LaunchOpen(f.launches[|f.launches| - 1].claim.attempt);
        }
      case KLaunchEnded | KLaunchAcknowledged =>
        if f.seals.ended != Unsealed {
          return FollowsEnd;
        }
      case KYieldRequest =>
        if f.seals.agentEnded {
          return FollowsEnd;
        }
      case KDeliveryAuthorized =>
        if f.authorized.Some? {
          return AuthorizedTwice;
        }
      case _ =>
    }
    return PayloadUnreadable;
  }

  /** The time of an entry is the segment's, but for what was written after the run was down. */
  function Tick(f: Fold, e: Entry): Fold {
    if OutsideSegment(e.event) then f else f.(clock := f.clock.(last := e.time))
  }

  /** r is what the entry's rule makes of the fold, before its time is kept. */
  ghost predicate Reads(before: seq<Entry>, f: Fold, e: Entry, r: Result<Fold, Fault>) {
    match RuleRefusal(before, f, e.event)
    case Some(why) => r == Err(why)
    case None => r.Ok? && Tick(r.value, e) == Next(before, f, e)
  }

  method ReadResume(before: seq<Entry>, f: Fold, e: Entry) returns (r: Result<Fold, Fault>)
    requires e.event.RunResumed?
    ensures Reads(before, f, e, r)
  {
    var p := e.event.resumed;
    if f.seals.ended != Unsealed || f.seals.agentEnded {
      return Err(FollowsEnd);
    }
    var o := OpenLaunch(f.launches);
    if o.Some? {
      return Err(LaunchOpen(o.value.claim.attempt));
    }
    var g := f.(clock := f.clock.(elapsed := f.clock.elapsed + (f.clock.last - f.clock.start), start := e.time),
                segment := Segment(f.segment.count + 1, |before| + 1, None, f.segment.halted),
                board := f.board.(pending := []));
    if p.ackDrift {
      g := g.(segment := g.segment.(halted := false));
    }
    var at := p.ackUnknown - 1;
    if 0 <= at < |g.launches| {
      g := g.(launches := g.launches[at := g.launches[at].(acked := true)]);
    }
    return Ok(g);
  }

  method ReadClaim(before: seq<Entry>, f: Fold, e: Entry) returns (r: Result<Fold, Fault>)
    requires e.event.LaunchClaimed?
    ensures Reads(before, f, e, r)
  {
    if f.seals.ended != Unsealed || f.seals.agentEnded {
      return Err(FollowsEnd);
    }
    var o := OpenLaunch(f.launches);
    if o.Some? {
      return Err(LaunchOpen(o.value.claim.attempt));
    }
    if e.event.claim.attempt != |f.launches| + 1 {
      return Err(WrongAttempt);
    }
    return Ok(f.(launches := f.launches + [Launch(e.event.claim, |before| + 1, e.hash, NoOutcome, NoClass, false)]));
  }

  method ReadLaunchEnd(before: seq<Entry>, f: Fold, e: Entry) returns (r: Result<Fold, Fault>)
    requires e.event.LaunchEnded?
    ensures Reads(before, f, e, r)
  {
    var p := e.event.end;
    if f.seals.ended != Unsealed {
      return Err(FollowsEnd);
    }
    var o := OpenLaunch(f.launches);
    if o.None? || o.value.claim.attempt != p.attempt || o.value.claim.generation != p.generation {
      return Err(NoOpenLaunch);
    }
    if !KnownOutcome(p.outcome) {
      return Err(UnknownOutcome);
    }
    var failure := p.failure;
    if failure == NoClass {
      failure := ClassOf(p.outcome);
    } else if !ClassFits(failure, p.outcome) {
      return Err(ClassMisfit);
    }
    var k := |f.launches| - 1;
    return Ok(f.(launches := f.launches[k := f.launches[k].(outcome := p.outcome, failure := failure)]));
  }

  method ReadAcknowledgement(before: seq<Entry>, f: Fold, e: Entry) returns (r: Result<Fold, Fault>)
    requires e.event.LaunchAcknowledged?
    ensures Reads(before, f, e, r)
  {
    var k := |f.launches| - 1;
    if f.seals.ended != Unsealed {
      return Err(FollowsEnd);
    }
    if k < 0 || !Lost(f.launches[k]) || f.launches[k].outcome == NoOutcome || f.launches[k].claim != e.event.acked {
      return Err(NoLostLaunch);
    }
    if f.launches[k].acked {
      return Err(AckedTwice);
    }
    return Ok(f.(launches := f.launches[k := f.launches[k].(acked := true)]));
  }

  method ReadVote(before: seq<Entry>, f: Fold, e: Entry) returns (r: Result<Fold, Fault>)
    requires e.event.ValidatorVoted?
    ensures Reads(before, f, e, r)
  {
    if f.seals.ended != Unsealed || f.seals.agentEnded {
      return Err(FollowsEnd);
    }
    var why := BallotRefused(f.bound.models, f.board.pending, f.votes, e.event.ballot);
    if why.Some? {
      return Err(VoteRefused(why.value));
    }
    return Ok(f.(votes := f.votes + [Vote(e.event.ballot, |before| + 1, e.hash)]));
  }

  method ReadDecision(before: seq<Entry>, f: Fold, e: Entry) returns (r: Result<Fold, Fault>)
    requires e.event.YieldDecided?
    ensures Reads(before, f, e, r)
  {
    hide FindRequest, PanelRefusal, VoteRefusal, AuthorizeRefusal, LaunchEndRefusal, AcknowledgeRefusal, EarlyRefusal,
        LaunchRefusal;
    var d := Decision(e.event.ruling, |before| + 1, e.hash, None);
    if f.seals.ended != Unsealed {
      return Err(FollowsEnd);
    }
    if d.ruling.seqNo <= f.board.lastDecided {
      return Err(SeqNotIncreasing);
    }
    var pending := f.board.pending;
    if d.ruling.action != FinalReview {
      if f.seals.agentEnded {
        return Err(FollowsEnd);
      }
      var at := RequestOf(pending, d.ruling);
      if at == |pending| || pending[at].action != d.ruling.action {
        return Err(NoRequest);
      }
      d := d.(request := Some(pending[at]));
      pending := pending[..at] + pending[at + 1..];
      var why := PanelDecisionRefused(f.bound.models, f.votes, d.ruling);
      if why.Some? {
        return Err(PanelRefused(why.value));
      }
    }
    return Ok(f.(board := Board(pending, f.board.decisions + [d], d.ruling.seqNo)));
  }

  method ReadAuthorization(before: seq<Entry>, f: Fold, e: Entry) returns (r: Result<Fold, Fault>)
    requires e.event.DeliveryAuthorized?
    ensures Reads(before, f, e, r)
  {
    if f.authorized.Some? {
      return Err(AuthorizedTwice);
    }
    var why := AuthorizationRefused(before, f.bound, f.policy, f.checks, e.event.grant);
    if why.Some? {
      return Err(GrantRefused(why.value));
    }
    var g := f.(authorized := Some(Authorization(e.event.grant, |before| + 1, e.hash)));
    if g.seals.sealed == Unsealed {
      g := g.(seals := g.seals.(sealed := SealAuthorized));
    }
    return Ok(g);
  }

  /** What a commit-naming event does: it refines an authorization's seal, and ends the agent's part or the chain. */
  method NameCommit(s: Seals, t: Tip, e: Event, p: CommitNote) returns (s': Seals, t': Tip)
    requires NamesCommit(e) && e.note == p
    ensures s' == NextSeals(s, e) && t' == NextTip(t, e)
  {
    s', t' := s, t.(named := t.named + [Delivery(SealOf(e), p)]);
    if !e.CommitPrepared? {
      t' := t'.(commit := p.commit);
    }
    if e.RunRecovered? || e.ReviewDelivered? {
      t' := t'.(evidence := p.evidenceErrors, recovered := e.RunRecovered?);
    }
    if s'.sealed == Unsealed || s'.sealed == SealAuthorized {
      s' := s'.(sealed := SealOf(e));
    }
    if e.CommitPrepared? {
      s' := s'.(agentEnded := true);
    } else if s'.ended == Unsealed {
      s' := s'.(ended := SealOf(e));
    }
  }

  /** The case of one entry. */
  method ReadEntry(before: seq<Entry>, f: Fold, e: Entry) returns (r: Result<Fold, Fault>)
    ensures Reads(before, f, e, r)
  {
    hide LaunchRefusal, LaunchEndRefusal, AcknowledgeRefusal, DecisionRefusal, VoteRefusal, AuthorizeRefusal,
        GrantRefusal;
    var n, g := |before| + 1, f;
    match e.event {
      case RunResumed(_) => r := ReadResume(before, f, e); return;
      case LaunchClaimed(_) => r := ReadClaim(before, f, e); return;
      case LaunchEnded(_) => r := ReadLaunchEnd(before, f, e); return;
      case LaunchAcknowledged(_) => r := ReadAcknowledgement(before, f, e); return;
      case ValidatorVoted(_) => r := ReadVote(before, f, e); return;
      case YieldDecided(_) => r := ReadDecision(before, f, e); return;
      case DeliveryAuthorized(_) => r := ReadAuthorization(before, f, e); return;
      case RunBound(b) =>
        if n > 1 {
          return Err(BoundTwice);
        }
        g := g.(bound := b, segment := g.segment.(start := n), clock := g.clock.(start := e.time));
      case YieldRequest(a) =>
        if f.seals.agentEnded {
          return Err(FollowsEnd);
        }
        g := g.(board := g.board.(pending := g.board.pending + [Request(a, n, e.hash)]));
      case PolicySnapshot(p) => g := g.(policy := Some(p));
      case DriftHalt(_) => g := g.(segment := g.segment.(halted := true));
      case RunPath(s) => g := g.(segment := g.segment.(path := Some(s)));
      case EvidenceFailed(p) => g := g.(tip := g.tip.(commit := p.commit, evidence := p.evidenceErrors));
      case CertificateFailed(c) => g := g.(tip := g.tip.(commit := c));
      case RecoveryRepaired(p) => g := g.(tip := g.tip.(evidence := p.evidenceErrors));
      case PhaseChecked(c) => g := g.(checks := Checks(n, e.hash, c, false));
      case AwaitingReview(o) =>
        var checked := CheckFound(before, o.phaseChecked);
        g := g.(checks := g.checks.(reviewedSince := true),
                review := Some(Review(o, n, e.hash, checked, Waiting)));
      case ReviewAccepted =>
        if g.review.Some? {
          g := g.(review := Some(g.review.value.(decided := Accepted)));
        }
      case ReviewRejected =>
        if g.review.Some? {
          g := g.(review := Some(g.review.value.(decided := Rejected)));
        }
      case CommitPrepared(p) =>
        var s, t := NameCommit(g.seals, g.tip, e.event, p);
        g := g.(seals := s, tip := t);
      case CertificateIssued(p) =>
        var s, t := NameCommit(g.seals, g.tip, e.event, p);
        g := g.(seals := s, tip := t);
      case RunRecovered(p) =>
        var s, t := NameCommit(g.seals, g.tip, e.event, p);
        g := g.(seals := s, tip := t);
      case ReviewDelivered(p) =>
        var s, t := NameCommit(g.seals, g.tip, e.event, p);
        g := g.(seals := s, tip := t);
      case Unreadable(k) =>
        var why := ReadUnreadable(f, n, k);
        return Err(why);
      case _ =>
    }
    return Ok(g);
  }

  /** One turn of the loop: the rules every entry obeys, then its own. */
  method ReadNext(before: seq<Entry>, f: Fold, e: Entry) returns (r: Result<Fold, Fault>)
    ensures match Refusal(before, f, e.event)
            case Some(why) => r == Err(why)
            case None => r == Ok(Next(before, f, e))
  {
    hide RuleRefusal, Next, AllowedAfterAuthorization, Tick;
    if before == [] && !Binds(e.event) {
      return Err(NotBound);
    }
    if f.authorized.Some? && !Authorizes(e.event) && !AllowedAfterAuthorization(e.event) {
      return Err(FollowsAuthorization);
    }
    r := ReadEntry(before, f, e);
    if r.Ok? {
      r := Ok(Tick(r.value, e));
    }
  }

  /** What the loop finds of a chain is what the fold says of it: the history of an accepted chain; of a refused one,
      the first entry that is refused, with the chain before it accepted. */
  method ReadChain(es: seq<Entry>) returns (r: Result<History, GrammarError>)
    ensures r.Ok? <==> Accepts(es)
    ensures r.Ok? ==> r.value == HistoryOf(es)
    ensures r.Err? ==> 1 <= r.error.index <= |es| && Accepts(es[..r.error.index - 1]) && !Accepts(es[..r.error.index])
                       && Run(es) == Err(r.error)
  {
    hide Refusal, Next;
    var f, i := START, 0;
    assert es[..0] == [];
    while i < |es|
      invariant i <= |es|
      invariant Run(es[..i]) == Ok(f)
    {
      assert es[..i + 1][..i] == es[..i];
      var read := ReadNext(es[..i], f, es[i]);
      match read {
        case Err(why) =>
          RefusalStays(es, i + 1);
          return Err(GrammarError(i + 1, why));
        case Ok(g) =>
          f := g;
      }
      i := i + 1;
    }
    assert es[..i] == es;
    r := Ok(Finish(es, f));
  }
}
