/** The events of a run's audit chain, as payloads already decoded. A payload that cannot be read is `Unreadable`. */
module Events {
  datatype Action = FileEdit | ShellExec | ToolCall | FinalReview | OtherAction(name: string)

  /** How a launch ended; `NoOutcome` is the empty text. */
  datatype LaunchOutcome =
    | NoOutcome
    | Exited
    | Failed
    | Stopped
    | Unresponsive
    | UnknownAfterRestart
    | OtherOutcome(name: string)

  /** Why a launch did not end well; `NoClass` is the empty text. */
  datatype FailureClass =
    | NoClass
    | ClassRejected
    | ClassHostExit
    | ClassStorage
    | ClassCleanup
    | ClassUncertainDispatch
    | OtherClass(name: string)

  datatype Verdict = VoteApprove | VoteReject | VoteError | OtherVerdict(text: string)

  /** The status a segment ended with; `NoStatus` on chains from before it was recorded. */
  datatype Status = NoStatus | StatusSuccess | StatusFailed | StatusKilled | OtherStatus(name: string)

  datatype Bound = Bound(base: string, terms: string, models: seq<string>)
  datatype Resumed = Resumed(ackDrift: bool, ackUnknown: int)
  datatype Claim = Claim(attempt: int, generation: string)
  datatype LaunchEnd = LaunchEnd(attempt: int, generation: string, outcome: LaunchOutcome, failure: FailureClass)
  datatype Policy = Policy(digest: string, signed: bool)
  datatype Ballot = Ballot(model: string, requestEntry: string, verdict: Verdict)
  datatype Check = Check(tree: string, passed: bool)
  datatype Offer = Offer(tree: string, files: map<string, string>, phaseChecked: string)
  datatype Grant = Grant(phaseChecked: string, tree: string, terms: string, policy: string, mode: string)

  /** A SHA-256 digest: two texts have one digest only when they are the same text. */
  datatype Digest = NoDigest | Sha256(of: string)

  /** What a yield_decided entry carries. */
  datatype Ruling = Ruling(
    seqNo: int,
    source: string,
    action: Action,
    approved: bool,
    requestSum: Digest,
    requestEntry: string,
    files: map<string, string>,
    unconsumed: bool,
    adopts: int)

  /** What an event that names the run's commit says. */
  datatype CommitNote = CommitNote(commit: string, evidenceErrors: seq<string>)

  /** The event types whose payload the replay reads. */
  datatype Kind =
    | KRunBound | KRunResumed | KLaunchClaimed | KLaunchEnded | KLaunchAcknowledged | KPolicySnapshot | KDriftHalt
    | KRunPath | KEvidenceFailed | KCertificateFailed | KRecoveryRepaired | KYieldRequest | KValidatorVoted
    | KYieldDecided | KPhaseChecked | KDeliveryAuthorized | KAwaitingReview | KReviewAccepted | KReviewRejected
    | KCommitPrepared | KCertificateIssued | KRunRecovered | KReviewDelivered | KNoted

  datatype Event =
    | RunBound(bound: Bound)
    | RunResumed(resumed: Resumed)
    | LaunchClaimed(claim: Claim)
    | LaunchEnded(end: LaunchEnd)
    | LaunchAcknowledged(acked: Claim)
    | PolicySnapshot(policy: Policy)
    | DriftHalt(reason: string)
    | RunPath(status: Status)
    | EvidenceFailed(failed: CommitNote)
    | CertificateFailed(uncertified: string)
    | RecoveryRepaired(repaired: CommitNote)
    | YieldRequest(action: Action)
    | ValidatorVoted(ballot: Ballot)
    | YieldDecided(ruling: Ruling)
    | PhaseChecked(check: Check)
    | DeliveryAuthorized(grant: Grant)
    | AwaitingReview(offer: Offer)
    | ReviewAccepted
    | ReviewRejected
    | CommitPrepared(note: CommitNote)
    | CertificateIssued(note: CommitNote)
    | RunRecovered(note: CommitNote)
    | ReviewDelivered(note: CommitNote)
    | Noted              // initiator_signed, agent_session, state_emit, shell_ran, source_dirty: no rule reads them
    | CheckRan
    | RolledBack
    | Other(name: string) // a type the replay does not know
    | Unreadable(kind: Kind)

  /** One entry of the chain: its event, its hash and when it was written. */
  datatype Entry = Entry(event: Event, hash: string, time: int)

  const MODE_POLICY := "policy"
  const VALIDATOR_PREFIX := "validator:"

  predicate Final(r: Ruling) {
    r.action.FinalReview?
  }

  /** An approved file change: what reaches the branch. */
  predicate IsApproval(r: Ruling) {
    r.approved && r.action.FileEdit?
  }

  /** The events that end the chain's decisions. */
  predicate EndsChain(e: Event) {
    e.CertificateIssued? || e.RunRecovered? || e.ReviewDelivered?
  }

  /** The events that report a commit: that it was made, or what evidence of it there is. */
  predicate ReportsCommit(e: Event) {
    EndsChain(e) || e.EvidenceFailed? || e.CertificateFailed?
  }

  function ReportedCommit(e: Event): string
    requires ReportsCommit(e)
  {
    match e
    case EvidenceFailed(p) => p.commit
    case CertificateFailed(c) => c
    case CertificateIssued(p) => p.commit
    case RunRecovered(p) => p.commit
    case ReviewDelivered(p) => p.commit
  }

  /** The allow-list of what may follow delivery_authorized. */
  predicate AllowedAfterAuthorization(e: Event) {
    match e
    case CommitPrepared(_) => true
    case CertificateIssued(_) => true
    case RunRecovered(_) => true
    case RecoveryRepaired(_) => true
    case CheckRan => true
    case CertificateFailed(_) => true
    case EvidenceFailed(_) => true
    case LaunchEnded(_) => true
    case RunPath(_) => true
    case RolledBack => true
    case Unreadable(k) =>
      k in {KCommitPrepared, KCertificateIssued, KRunRecovered, KRecoveryRepaired, KCertificateFailed, KEvidenceFailed,
            KLaunchEnded, KRunPath}
    case _ => false
  }

  /** Entries that are written when no segment is running, and whose time no segment counts. */
  predicate OutsideSegment(e: Event) {
    e.LaunchAcknowledged? || (e.LaunchEnded? && e.end.outcome.UnknownAfterRestart?)
  }

  /** The failure class of an outcome that comes without one. */
  function ClassOf(o: LaunchOutcome): FailureClass {
    match o
    case Failed => ClassHostExit
    case Unresponsive => ClassCleanup
    case UnknownAfterRestart => ClassUncertainDispatch
    case _ => NoClass
  }

  /** Whether a launch that ended so can have this class. */
  predicate ClassFits(c: FailureClass, o: LaunchOutcome) {
    match c
    case ClassRejected => o.Failed?
    case ClassHostExit => o.Failed?
    case ClassCleanup => o.Unresponsive?
    case ClassUncertainDispatch => o.UnknownAfterRestart?
    case ClassStorage => o.Exited? || o.Failed? || o.Stopped?
    case _ => false
  }

  predicate KnownOutcome(o: LaunchOutcome) {
    o.Exited? || o.Failed? || o.Stopped? || o.Unresponsive? || o.UnknownAfterRestart?
  }

  /** The outcomes that leave open how a launch ended. */
  predicate LostOutcome(o: LaunchOutcome) {
    o.NoOutcome? || o.UnknownAfterRestart? || o.Unresponsive?
  }
}
