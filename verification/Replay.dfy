/** The replay of an audit chain: `Refusal` is the grammar, why an entry is refused after the entries before it; the
    `Next...` functions say what an entry does to each part of the history; and `Run` folds them over the chain. The
    loop that computes it is `ReplayLoop.ReadChain`. */
module Replay {
  import opened Wrappers
  import opened Events

  datatype Request = Request(action: Action, index: nat, entry: string)
  datatype Decision = Decision(ruling: Ruling, index: nat, entry: string, request: Option<Request>)
  datatype Vote = Vote(ballot: Ballot, index: nat, entry: string)
  datatype Launch = Launch(claim: Claim, index: nat, entry: string, outcome: LaunchOutcome, failure: FailureClass,
                           acked: bool)
  datatype Answer = Waiting | Accepted | Rejected
  datatype Review = Review(offer: Offer, index: nat, entry: string, checked: Option<Check>, decided: Answer)
  datatype Authorization = Authorization(grant: Grant, index: nat, entry: string)

  /** What sealed a chain, for its agent or altogether. */
  datatype Seal = Unsealed | SealAuthorized | SealPrepared | SealCertified | SealRecovered | SealDelivered

  datatype Delivery = Delivery(event: Seal, note: CommitNote)

  /** The proposals: the requests that wait, oldest first; every decision; the number of the last one. */
  datatype Board = Board(pending: seq<Request>, decisions: seq<Decision>, lastDecided: int)

  /** The last phase_checked (position 0 while there is none), and whether a review was offered since. */
  datatype Checks = Checks(index: nat, entry: string, check: Check, reviewedSince: bool)

  /** agentEnded: commit_prepared was seen. ended: the first event that ended the chain. sealed: the first of all of
      them, an authorization refined by the event that names the commit. */
  datatype Seals = Seals(agentEnded: bool, ended: Seal, sealed: Seal)

  /** What is delivered: the commit-naming events, the commit ("" while none is delivered) and its evidence. */
  datatype Tip = Tip(named: seq<Delivery>, commit: string, recovered: bool, evidence: seq<string>)

  /** The last segment: how many there were, the position it starts at, its run_path, and whether drift halted the
      run. */
  datatype Segment = Segment(count: nat, start: nat, path: Option<Status>, halted: bool)

  /** Active time of the closed segments, the start of this one, and its last entry so far. */
  datatype Clock = Clock(elapsed: int, start: int, last: int)

  datatype Fold = Fold(
    bound: Bound,
    policy: Option<Policy>,
    board: Board,
    votes: seq<Vote>,
    launches: seq<Launch>,
    checks: Checks,
    review: Option<Review>,
    authorized: Option<Authorization>,
    seals: Seals,
    tip: Tip,
    segment: Segment,
    clock: Clock)

  /** The result of a replay: the fold, the active time, how many requests still wait, the hash of the last entry. */
  datatype History = History(fold: Fold, elapsed: int, undecided: nat, head: string)

  datatype VoteFault = NoPanel | NotOnPanel | BadVerdict | NoSuchRequest | VotedTwice
  datatype PanelFault = OtherPanel | NoVote(model: string) | Disagrees(model: string)
  datatype GrantFault =
    | NamesNoCheck | NotLatestCheck | OtherTree | CheckFailed | ReviewOffered
    | OtherMode | OtherTerms | UnsignedPolicy | OtherPolicy

  datatype Fault =
    | NotBound
    | BoundTwice
    | PayloadUnreadable
    | FollowsAuthorization
    | FollowsEnd
    | LaunchOpen(attempt: int)
    | WrongAttempt
    | NoOpenLaunch
    | UnknownOutcome
    | ClassMisfit
    | NoLostLaunch
    | AckedTwice
    | VoteRefused(vote: VoteFault)
    | SeqNotIncreasing
    | NoRequest
    | PanelRefused(panel: PanelFault)
    | AuthorizedTwice
    | GrantRefused(why: GrantFault)

  /** Where a chain is refused: the entry's position, from 1, and why. */
  datatype GrammarError = GrammarError(index: nat, fault: Fault)

  const START := Fold(Bound("", "", []), None, Board([], [], 0), [], [],
                      Checks(0, "", Check("", false), false), None, None,
                      Seals(false, Unsealed, Unsealed), Tip([], "", false, []), Segment(1, 0, None, false),
                      Clock(0, 0, 0))

  // ----- launches -----

  predicate Lost(l: Launch) {
    LostOutcome(l.outcome)
  }

  /** The launch that has not ended: it can only be the last. */
  function OpenLaunch(ls: seq<Launch>): Option<Launch> {
    if |ls| > 0 && ls[|ls| - 1].outcome.NoOutcome? then Some(ls[|ls| - 1]) else None
  }

  function LaunchEndRefusal(ls: seq<Launch>, p: LaunchEnd): Option<Fault> {
    match OpenLaunch(ls)
    case None => Some(NoOpenLaunch)
    case Some(o) =>
      if o.claim != Claim(p.attempt, p.generation) then Some(NoOpenLaunch)
      else if !KnownOutcome(p.outcome) then Some(UnknownOutcome)
      else if p.failure != NoClass && !ClassFits(p.failure, p.outcome) then Some(ClassMisfit)
      else None
  }

  /** An acknowledgement must name the last launch, which must be lost, have ended and not be acknowledged yet. */
  function AcknowledgeRefusal(ls: seq<Launch>, p: Claim): Option<Fault> {
    if ls == [] then Some(NoLostLaunch)
    else
      var l := ls[|ls| - 1];
      if !Lost(l) || l.outcome.NoOutcome? || l.claim != p then Some(NoLostLaunch)
      else if l.acked then Some(AckedTwice)
      else None
  }

  function NextLaunches(ls: seq<Launch>, n: nat, e: Entry): seq<Launch> {
    match e.event
    case RunResumed(p) =>
      var at := p.ackUnknown - 1;
      if 0 <= at < |ls| then ls[at := ls[at].(acked := true)] else ls
    case LaunchClaimed(c) => ls + [Launch(c, n, e.hash, NoOutcome, NoClass, false)]
    case LaunchEnded(p) =>
      if ls == [] then ls
      else ls[|ls| - 1 := ls[|ls| - 1].(outcome := p.outcome,
                                        failure := if p.failure == NoClass then ClassOf(p.outcome) else p.failure)]
    case LaunchAcknowledged(_) => if ls == [] then ls else ls[|ls| - 1 := ls[|ls| - 1].(acked := true)]
    case _ => ls
  }

  // ----- proposals -----

  /** A decision names its request's entry; on a chain from before that, it takes the oldest of its kind. */
  predicate Matches(q: Request, r: Ruling) {
    if r.requestEntry != "" then q.entry == r.requestEntry else q.action == r.action
  }

  /** The first waiting request the decision matches; |pending| when there is none. */
  function FindRequest(pending: seq<Request>, r: Ruling): (at: nat)
    ensures at <= |pending|
    ensures at < |pending| ==> Matches(pending[at], r)
    ensures forall j :: 0 <= j < at ==> !Matches(pending[j], r)
  {
    if pending == [] || Matches(pending[0], r) then 0 else 1 + FindRequest(pending[1..], r)
  }

  /** The request the decision uses up. */
  function Answered(pending: seq<Request>, r: Ruling): Option<Request> {
    var at := FindRequest(pending, r);
    if Final(r) || at == |pending| || pending[at].action != r.action then None else Some(pending[at])
  }

  function DecisionRefusal(f: Fold, r: Ruling): Option<Fault> {
    if f.seals.ended != Unsealed then Some(FollowsEnd)
    else if r.seqNo <= f.board.lastDecided then Some(SeqNotIncreasing)
    else if Final(r) then None
    else if f.seals.agentEnded then Some(FollowsEnd)
    else if Answered(f.board.pending, r).None? then Some(NoRequest)
    else
      match PanelRefusal(f.bound.models, f.votes, r)
      case Some(why) => Some(PanelRefused(why))
      case None => None
  }

  function NextBoard(b: Board, n: nat, e: Entry): Board {
    match e.event
    case RunResumed(_) => b.(pending := []) // requests do not outlive their segment
    case YieldRequest(a) => b.(pending := b.pending + [Request(a, n, e.hash)])
    case YieldDecided(r) =>
      var at := FindRequest(b.pending, r);
      var q := Answered(b.pending, r);
      Board(if q.None? then b.pending else b.pending[..at] + b.pending[at + 1..],
            b.decisions + [Decision(r, n, e.hash, q)],
            r.seqNo)
    case _ => b
  }

  // ----- the panel -----

  function Join(names: seq<string>, sep: string): string {
    if names == [] then "" else if |names| == 1 then names[0] else names[0] + sep + Join(names[1..], sep)
  }

  function PanelName(models: seq<string>): string {
    VALIDATOR_PREFIX + Join(models, "+")
  }

  /** Why a vote is refused. */
  function VoteRefusal(models: seq<string>, pending: seq<Request>, votes: seq<Vote>, b: Ballot): Option<VoteFault> {
    if models == [] then Some(NoPanel)
    else if b.model !in models then Some(NotOnPanel)
    else if b.verdict.OtherVerdict? then Some(BadVerdict)
    else if !exists q :: q in pending && q.entry == b.requestEntry then Some(NoSuchRequest)
    else if exists v :: v in votes && v.ballot.requestEntry == b.requestEntry && v.ballot.model == b.model
        then Some(VotedTwice)
    else None
  }

  /** The last verdict of this model among the votes on this request; None when it gave none. */
  function VotedBy(votes: seq<Vote>, requestEntry: string, model: string): Option<Verdict> {
    if votes == [] then None
    else
      var v := votes[|votes| - 1].ballot;
      if v.requestEntry == requestEntry && v.model == model then Some(v.verdict)
      else VotedBy(votes[..|votes| - 1], requestEntry, model)
  }

  /** A decision by the panel, of a run that declared one. */
  predicate ByPanel(models: seq<string>, r: Ruling) {
    models != [] && VALIDATOR_PREFIX <= r.source
  }

  function Wanted(r: Ruling): Verdict {
    if r.approved then VoteApprove else VoteReject
  }

  /** The first model of the panel whose vote does not carry the decision. */
  function MissingVote(models: seq<string>, votes: seq<Vote>, r: Ruling): Option<PanelFault> {
    if models == [] then None
    else
      match VotedBy(votes, r.requestEntry, models[0])
      case None => Some(NoVote(models[0]))
      case Some(v) => if v != Wanted(r) then Some(Disagrees(models[0])) else MissingVote(models[1..], votes, r)
  }

  /** Why a decision in the name of the panel is refused: by the first model whose vote does not carry it. */
  function PanelRefusal(models: seq<string>, votes: seq<Vote>, r: Ruling): Option<PanelFault> {
    if !ByPanel(models, r) then None
    else if r.source != PanelName(models) then Some(OtherPanel)
    else MissingVote(models, votes, r)
  }

  function NextVotes(votes: seq<Vote>, n: nat, e: Entry): seq<Vote> {
    if e.event.ValidatorVoted? then votes + [Vote(e.event.ballot, n, e.hash)] else votes
  }

  // ----- checks, reviews and the authorization -----

  predicate ChecksAs(e: Entry, hash: string) {
    e.event.PhaseChecked? && e.hash == hash
  }

  /** The position, from 0, of the first phase_checked entry with this hash; |before| when there is none. */
  function FirstCheck(before: seq<Entry>, hash: string): (k: nat)
    ensures k <= |before|
    ensures k < |before| ==> ChecksAs(before[k], hash)
    ensures forall j :: 0 <= j < k ==> !ChecksAs(before[j], hash)
  {
    if before == [] then 0
    else
      var k := FirstCheck(before[..|before| - 1], hash);
      if k < |before| - 1 || ChecksAs(before[|before| - 1], hash) then k else |before|
  }

  /** What the last phase_checked entry with this hash found. */
  function NamedCheck(before: seq<Entry>, hash: string): Option<Check> {
    if before == [] then None
    else if ChecksAs(before[|before| - 1], hash) then Some(before[|before| - 1].event.check)
    else NamedCheck(before[..|before| - 1], hash)
  }

  /** Why an authorization is refused. */
  function GrantRefusal(before: seq<Entry>, bound: Bound, policy: Option<Policy>, c: Checks, g: Grant)
    : Option<GrantFault>
  {
    var named := FirstCheck(before, g.phaseChecked);
    if named == |before| then Some(NamesNoCheck)
    else if named + 1 != c.index then Some(NotLatestCheck)
    else if c.check.tree != g.tree then Some(OtherTree)
    else if !c.check.passed then Some(CheckFailed)
    else if c.reviewedSince then Some(ReviewOffered)
    else if g.mode != MODE_POLICY then Some(OtherMode)
    else if bound.terms == "" || g.terms != bound.terms then Some(OtherTerms)
    else if policy.None? || !policy.value.signed then Some(UnsignedPolicy)
    else if g.policy != policy.value.digest then Some(OtherPolicy)
    else None
  }

  function AuthorizeRefusal(before: seq<Entry>, f: Fold, g: Grant): Option<Fault> {
    if f.authorized.Some? then Some(AuthorizedTwice)
    else
      match GrantRefusal(before, f.bound, f.policy, f.checks, g)
      case Some(why) => Some(GrantRefused(why))
      case None => None
  }

  function NextChecks(c: Checks, n: nat, e: Entry): Checks {
    match e.event
    case PhaseChecked(found) => Checks(n, e.hash, found, false)
    case AwaitingReview(_) => c.(reviewedSince := true)
    case _ => c
  }

  function NextReview(before: seq<Entry>, r: Option<Review>, n: nat, e: Entry): Option<Review> {
    match e.event
    case AwaitingReview(o) => Some(Review(o, n, e.hash, NamedCheck(before, o.phaseChecked), Waiting))
    case ReviewAccepted => if r.None? then r else Some(r.value.(decided := Accepted))
    case ReviewRejected => if r.None? then r else Some(r.value.(decided := Rejected))
    case _ => r
  }

  function NextAuthorized(a: Option<Authorization>, n: nat, e: Entry): Option<Authorization> {
    if e.event.DeliveryAuthorized? then Some(Authorization(e.event.grant, n, e.hash)) else a
  }

  // ----- seals, the commit, segments and time -----

  /** The run is over for its agent. */
  predicate Over(s: Seals) {
    s.ended != Unsealed || s.agentEnded
  }

  function SealOf(e: Event): Seal {
    match e
    case DeliveryAuthorized(_) => SealAuthorized
    case CommitPrepared(_) => SealPrepared
    case CertificateIssued(_) => SealCertified
    case RunRecovered(_) => SealRecovered
    case ReviewDelivered(_) => SealDelivered
    case _ => Unsealed
  }

  predicate NamesCommit(e: Event) {
    e.CommitPrepared? || EndsChain(e)
  }

  function NextSeals(s: Seals, e: Event): Seals {
    Seals(s.agentEnded || e.CommitPrepared?,
          if EndsChain(e) && s.ended == Unsealed then SealOf(e) else s.ended,
          if s.sealed == Unsealed || (s.sealed == SealAuthorized && NamesCommit(e)) then SealOf(e) else s.sealed)
  }

  function NextTip(t: Tip, e: Event): Tip {
    match e
    case EvidenceFailed(p) => t.(commit := p.commit, evidence := p.evidenceErrors)
    case CertificateFailed(c) => t.(commit := c)
    case RecoveryRepaired(p) => t.(evidence := p.evidenceErrors)
    case CommitPrepared(p) => t.(named := t.named + [Delivery(SealPrepared, p)])
    case CertificateIssued(p) => t.(named := t.named + [Delivery(SealCertified, p)], commit := p.commit)
    case RunRecovered(p) => Tip(t.named + [Delivery(SealRecovered, p)], p.commit, true, p.evidenceErrors)
    case ReviewDelivered(p) => Tip(t.named + [Delivery(SealDelivered, p)], p.commit, false, p.evidenceErrors)
    case _ => t
  }

  function NextSegment(s: Segment, n: nat, e: Event): Segment {
    match e
    case RunBound(_) => s.(start := n)
    case RunResumed(p) => Segment(s.count + 1, n, None, s.halted && !p.ackDrift)
    case RunPath(status) => s.(path := Some(status))
    case DriftHalt(_) => s.(halted := true)
    case _ => s
  }

  function NextClock(c: Clock, e: Entry): Clock {
    if e.event.RunBound? then Clock(c.elapsed, e.time, e.time)
    else if e.event.RunResumed? then Clock(c.elapsed + (c.last - c.start), e.time, e.time)
    else if OutsideSegment(e.event) then c
    else c.(last := e.time)
  }

  // ----- the grammar -----

  /** Why nothing may launch or resume now. */
  function LaunchRefusal(f: Fold): Option<Fault> {
    if Over(f.seals) then Some(FollowsEnd)
    else
      match OpenLaunch(f.launches)
      case Some(o) => Some(LaunchOpen(o.claim.attempt))
      case None => None
  }

  function Also(first: Option<Fault>, second: Option<Fault>): Option<Fault> {
    if first.Some? then first else second
  }

  function When(bad: bool, why: Fault): Option<Fault> {
    if bad then Some(why) else None
  }

  /** What is refused of an event of this kind before its payload is read. */
  function EarlyRefusal(f: Fold, n: nat, k: Kind): Option<Fault> {
    match k
    case KRunBound => When(n > 1, BoundTwice)
    case KRunResumed => LaunchRefusal(f)
    case KLaunchClaimed => LaunchRefusal(f)
    case KLaunchEnded => When(f.seals.ended != Unsealed, FollowsEnd)
    case KLaunchAcknowledged => When(f.seals.ended != Unsealed, FollowsEnd)
    case KYieldRequest => When(f.seals.agentEnded, FollowsEnd)
    case KDeliveryAuthorized => When(f.authorized.Some?, AuthorizedTwice)
    case _ => None
  }

  /** Why an event of a type the replay has a rule for is refused. */
  function RuleRefusal(before: seq<Entry>, f: Fold, e: Event): Option<Fault> {
    var n := |before| + 1;
    match e
    case RunBound(_) => EarlyRefusal(f, n, KRunBound)
    case RunResumed(_) => LaunchRefusal(f)
    case LaunchClaimed(c) => Also(LaunchRefusal(f), When(c.attempt != |f.launches| + 1, WrongAttempt))
    case LaunchEnded(p) => Also(EarlyRefusal(f, n, KLaunchEnded), LaunchEndRefusal(f.launches, p))
    case LaunchAcknowledged(p) => Also(EarlyRefusal(f, n, KLaunchAcknowledged), AcknowledgeRefusal(f.launches, p))
    case YieldRequest(_) => EarlyRefusal(f, n, KYieldRequest)
    case ValidatorVoted(b) =>
      if Over(f.seals) then Some(FollowsEnd)
      else
        (match VoteRefusal(f.bound.models, f.board.pending, f.votes, b)
         case Some(why) => Some(VoteRefused(why))
         case None => None)
    case YieldDecided(r) => DecisionRefusal(f, r)
    case DeliveryAuthorized(g) => AuthorizeRefusal(before, f, g)
    case Unreadable(k) => Also(EarlyRefusal(f, n, k), Some(PayloadUnreadable))
    case _ => None
  }

  predicate Binds(e: Event) {
    e.RunBound? || e == Unreadable(KRunBound)
  }

  predicate Authorizes(e: Event) {
    e.DeliveryAuthorized? || e == Unreadable(KDeliveryAuthorized)
  }

  /** Why no run can have written the entry after these ones; None when it can. */
  function Refusal(before: seq<Entry>, f: Fold, e: Event): Option<Fault> {
    if before == [] && !Binds(e) then Some(NotBound)
    else if f.authorized.Some? && !Authorizes(e) && !AllowedAfterAuthorization(e) then Some(FollowsAuthorization)
    else RuleRefusal(before, f, e)
  }

  /** What an accepted entry makes of the fold. */
  function Next(before: seq<Entry>, f: Fold, e: Entry): Fold {
    var n := |before| + 1;
    Fold(if e.event.RunBound? then e.event.bound else f.bound,
         if e.event.PolicySnapshot? then Some(e.event.policy) else f.policy,
         NextBoard(f.board, n, e),
         NextVotes(f.votes, n, e),
         NextLaunches(f.launches, n, e),
         NextChecks(f.checks, n, e),
         NextReview(before, f.review, n, e),
         NextAuthorized(f.authorized, n, e),
         NextSeals(f.seals, e.event),
         NextTip(f.tip, e.event),
         NextSegment(f.segment, n, e.event),
         NextClock(f.clock, e))
  }

  // ----- the fold -----

  /** The fold over a chain, or the first refusal on it. */
  function Run(es: seq<Entry>): Result<Fold, GrammarError> {
    if es == [] then Ok(START)
    else
      var before := es[..|es| - 1];
      match Run(before)
      case Err(err) => Err(err)
      case Ok(f) =>
        match Refusal(before, f, es[|es| - 1].event)
        case Some(why) => Err(GrammarError(|es|, why))
        case None => Ok(Next(before, f, es[|es| - 1]))
  }

  predicate Accepts(es: seq<Entry>) {
    Run(es).Ok?
  }

  function FoldOf(es: seq<Entry>): Fold
    requires Accepts(es)
  {
    Run(es).value
  }

  function Finish(es: seq<Entry>, f: Fold): History {
    History(f, f.clock.elapsed + (f.clock.last - f.clock.start), |f.board.pending|,
            if es == [] then "" else es[|es| - 1].hash)
  }

  function HistoryOf(es: seq<Entry>): History
    requires Accepts(es)
  {
    Finish(es, FoldOf(es))
  }

  /** An accepted chain is accepted up to each of its entries, and each entry was accepted after the ones before it. */
  lemma {:induction false} RunPrefix(es: seq<Entry>, k: nat)
    requires k <= |es| && Accepts(es)
    ensures Accepts(es[..k])
    ensures k < |es| ==> Accepts(es[..k + 1]) && Refusal(es[..k], FoldOf(es[..k]), es[k].event).None?
                         && FoldOf(es[..k + 1]) == Next(es[..k], FoldOf(es[..k]), es[k])
    decreases |es|
  {
    if k == |es| {
      assert es[..k] == es;
    } else {
      var before := es[..|es| - 1];
      if k == |es| - 1 {
        assert es[..k + 1] == es;
      } else {
        RunPrefix(before, k);
        assert before[..k] == es[..k] && before[..k + 1] == es[..k + 1];
      }
    }
  }

  /** One more entry: refused by the grammar, or folded in. */
  lemma RunSnoc(before: seq<Entry>, e: Entry)
    requires Accepts(before)
    ensures Accepts(before + [e]) <==> Refusal(before, FoldOf(before), e.event).None?
    ensures Accepts(before + [e]) ==> FoldOf(before + [e]) == Next(before, FoldOf(before), e)
  {
    hide Refusal, Next;
    assert (before + [e])[..|before|] == before;
  }

  /** A chain is refused at its first bad entry, whatever follows it. */
  lemma {:induction false} RefusalStays(es: seq<Entry>, k: nat)
    requires k <= |es| && Run(es[..k]).Err?
    ensures Run(es) == Run(es[..k])
    decreases |es|
  {
    if k == |es| {
      assert es[..k] == es;
    } else {
      var before := es[..|es| - 1];
      assert before[..k] == es[..k];
      RefusalStays(before, k);
    }
  }
}
