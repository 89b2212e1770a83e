# A model of stAirCase's audit chain, approvals and keys

stAirCase runs coding agents under supervision: every proposal is decided by a person or a policy, every decision is
an entry of a hash chain, and what is committed is derived from what was approved. This project models the parts whose
correctness the rest depends on, and proves what they promise.

- **The audit chain's replay.** `Events` and `Replay` hold the fold over a chain's entries, its grammar, and why an
  entry is refused; `ReplayLoop` is the loop, with each refusal found the way the program finds it, proved equal to
  the fold. `ChainFacts`, `Matching`, `Panel`, `Launches`, `Authorization`, `ActiveTime`, `Outcomes`, `ChainOutcomes`
  and `Queries` prove what every accepted chain satisfies, in terms of its entries.
- **The approved state.** `Paths`, `Newlines`, `EditMeaning`, `Utf8` and `Approvals` model how edits are derived over
  an immutable base commit; `Rebuild` holds the specification's own reference, which keeps one flat map, and proves
  that the two agree; `Worktree` and `Finalize` model the review after a command, restoring, applying and the check
  before the commit.
- **Key rotation.** `KeyRotation` is the two-stage journal protocol over atomic file and database steps, with a crash
  possible after any of them; `KeyWorkspace` is the code that takes those steps.
- **Consuming a decision.** `Consume` is the protocol between the journal, the chain and the run's end; `ConsumeRun`
  is the code; `Reconcile` is recovery, which pairs what the chain approved with the journal.
- **The diagnostic log.** `DiagLog` is the bounded, rotating log with its byte accounting.
- **Smaller cores.** `ChainHash` (the length-prefixed hash), `Projects` and `TopoSort` (closure, fixpoint and Kahn's
  sort), `ApplyPatch` and `PatchRoundTrip` (the apply_patch parser), `ApprovalServer` and `ApprovalTable` (the
  decide-once table).

A pure function specifies each operation; where the program updates things in place, a method or a class does too and
is proved to compute that function, or to take only steps of the protocol. The classes of the protocols carry the
whole run so far as a ghost sequence of states, so that what is proved of every run holds of them.

## What the model found

Each of these is a property that fails as first stated. The first lemma named gives an input; the second says, for all
inputs, exactly when the property holds.

- The replay does not look at votes for a *final review* by `validator:`, so such a decision needs none:
  `Panel.FinalReviewNeedsNoVotes`, `Panel.FinalReviewAcceptedIff`. All other decisions by the panel rest on its votes
  (`Panel.PanelDecisionRestsOnVotes`).
- An `evidence_failed` entry that names no commit takes a delivered run back to undelivered:
  `Outcomes.EmptyReportUndelivers`, `Outcomes.DeliveredExactly`; `Outcomes.DeliveredStays` is the case in which it
  cannot happen.
- `certificate_issued` alone does not close the proposals: a `yield_request` is still accepted after it:
  `ChainFacts.RequestAfterCertificate`, `ChainFacts.RequestAcceptedIff`.
- Opening a diagnostic log that is over its bound cuts it at a character, and bytes of that character are in neither
  the file nor `dropped`: `DiagLog.OpenCutsCharacter`, `DiagLog.KeepTailWhole`; `trimmed` counts them in the accounts.
- A probe of a rotation that died before its journal was advanced can lose the secrets when it cannot read them and
  answers no: `KeyRotation.MissedProbeStrands`, `KeyRotation.SafeExactlyWhenSound`. So can a journal that cannot be
  read, with no probe asked: `KeyRotation.UnreadJournalStrands`, and the same condition.
- An edit of a file with CRLF throughout leaves it so though its replacement holds a lone CR, when the search block
  ends in the middle of a line break: `Newlines.MidBreakEdit`, `Newlines.EditKeepsLineBreaks`.
- `verify` compares bytes, not modes, so an approved executable passes when it is not one in the worktree:
  `Finalize.ModesAreNotVerified`, `Finalize.VerifiedIsCommitted`.
- Base64 with line breaks in `content_b64` is read by the program and refused by the reference rebuild:
  `Rebuild.BrokenBase64Differs`, `Rebuild.RebuildsAlike`. Text that is not UTF-8, which no ledger can hold, is refused
  by the program and taken by the reference: `Rebuild.RawBytesDiffer`, and the same condition. Those two are all in
  the model; a path under an existing file, which the model leaves out, is judged differently too.
- A version 1 hash binds neither the event's type nor where its parts end: `ChainHash.Version1DoesNotBind`,
  `ChainHash.Version1BindsIff`, and for the type `ChainHash.RelabelledVersion1`.
- A hunk that only takes lines away is read as putting a line break where they were:
  `PatchRoundTrip.RemovalLeavesLineBreak`, `PatchRoundTrip.EmptyReplacement`.
- A proposal that only shutdown rejected is "not found" to a later decision, not "already decided":
  `ApprovalServer.ShutdownIsNotFound`, `ApprovalServer.RepliesAreExact`.

## Model

| member | source | states |
|---|---|---|
| ReplayLoop.ReadChain | src/internal/history/history.go:213-525 | the loop over a chain, which makes a new history of the old one at each turn, accepts exactly the chains the fold accepts, refuses at the same entry for the same reason, and returns the same history |
| ReplayLoop.ReadEntry | src/internal/history/history.go:246-515 | one turn of the loop refuses or folds one entry as the grammar says, event type by event type |
| ReplayLoop.PanelDecisionRefused | src/internal/history/history.go:842-867 | one pass over the votes, the last vote of each model winning, gives the same refusal as asking each model in turn |
| ReplayLoop.BallotRefused | src/internal/history/history.go:822-836 | the scans over the panel, the waiting requests and the votes refuse a ballot for the reason the grammar gives |
| ReplayLoop.AuthorizationRefused | src/internal/history/history.go:540-565 | the scan for the named check, then the conditions in turn, refuse an authorization for the reason the grammar gives |
| ReplayLoop.RequestOf | src/internal/history/history.go:439-447 | the scan over the waiting requests finds the first that the decision matches |
| ReplayLoop.CheckFound | src/internal/history/history.go:482-487 | the scan for the check an offered review names finds the last entry with its hash |
| ReplayLoop.ReadUnreadable | src/internal/history/history.go:219-224 | a payload that cannot be read is refused for that, unless the event type alone is refused where it stands |
| Replay.RunPrefix | src/internal/history/history.go:213-246 | an accepted chain is accepted up to each of its entries, each judged by what comes before it only |
| Replay.RefusalStays | src/internal/history/history.go:213-246 | a chain is refused at its first bad entry, whatever follows |
| ChainFacts.BoundFirst | src/internal/history/history.go:230-258 | run_bound comes first, once, and its terms, base and panel are the run's to the end |
| ChainFacts.SealFacts | src/internal/history/history.go:468-507 | the seals say exactly whether the chain prepared a commit, ended or authorized a delivery |
| ChainFacts.SegmentFacts | src/internal/history/history.go:257-285 | the last segment starts at run_bound or the last run_resumed, and its run_path is the one since |
| ChainFacts.CheckFacts | src/internal/history/history.go:455-487 | the check the fold rests on is the last phase_checked, and it knows whether a review was offered since |
| ChainFacts.RequestAcceptedIff | src/internal/history/history.go:395-403 | a request is accepted exactly until a commit is prepared or a delivery authorized |
| ChainFacts.RequestAfterCertificate | src/internal/history/history.go:395-403 | an accepted chain in which a request follows certificate_issued |
| Matching.DecisionsAnswerRequests | src/internal/history/history.go:395-454 | the decisions are the chain's with strictly increasing numbers; each one on a proposal answers an earlier request of its segment and kind, the one it names or the oldest left, that no other answers; and no request of the last segment is lost |
| Matching.RequestsBalance | src/internal/history/history.go:517-525 | in the last segment, requests are as many as decisions on proposals plus the undecided |
| Panel.PanelDecisionRestsOnVotes | src/internal/history/history.go:822-867 | with distinct, non-empty hashes, each decision by the panel names its request and has exactly one vote on it from each model, before it, agreeing with it, and none after |
| Panel.NoVoteAfter | src/internal/history/history.go:410-422 | a request that was decided, by name or as the oldest of its kind, gets no more votes |
| Panel.FinalReviewNeedsNoVotes | src/internal/history/history.go:423-454 | a chain with a final review by the panel and no vote at all is accepted |
| Panel.FinalReviewAcceptedIff | src/internal/history/history.go:423-454 | a final review is accepted exactly when nothing ended the chain, no delivery was authorized and its number is higher than the last decision's, or than 0 when there is none, whatever was voted |
| Launches.LaunchesNumberedAndEnded | src/internal/history/history.go:287-312 | launch i has number i + 1, only the last can lack an outcome, the outcomes are those of the launch_ended entries, one for each launch that ended, and a launch that ended is lost exactly when its class is cleanup or uncertain dispatch |
| Launches.AcknowledgedOnce | src/internal/history/history.go:313-330 | each acknowledgement names a launch that ended lost, and no launch is acknowledged twice by name |
| Launches.SealedForGood | src/internal/history/history.go:496-515 | once the chain is sealed, no accepted extension launches, resumes, votes or decides a proposal other than a final review |
| Authorization.AuthorizedIffJustified | src/internal/history/history.go:540-565 | a delivery authorization is accepted exactly when there was none before, it names the last phase_checked, which passed on its tree with no review offered since, in policy mode, under the run's terms and its signed policy |
| Authorization.AuthorizationStaysJustified | src/internal/history/history.go:461-475 | what justified it still holds at the end of every accepted chain |
| Authorization.OnlyDeliveryFollows | src/internal/history/history.go:531-535 | after it, only a delivery's own events: no decision, request, vote, launch claim, resume or review |
| ActiveTime.ElapsedIsActiveTime | src/internal/history/history.go:517-519 | the active time is the sum over the segments of the time from the entry that starts the segment to the last one that belongs to it |
| ActiveTime.ActiveAndDown | src/internal/history/history.go:258-260 | that sum, and the sum over the resumes of the time the run was down before them, add up to the time from run_bound to the last entry that belongs to a segment |
| Outcomes.DeliveredExactly | src/internal/history/outcome.go:38-50 | the outcome is delivered, complete or not, exactly when the last entry that reports a commit names one |
| Outcomes.DeliveredStays | src/internal/history/outcome.go:38-50 | a delivered run stays delivered under every accepted extension when each event that reports a commit names one |
| Outcomes.EmptyReportUndelivers | src/internal/history/history.go:377-394 | an accepted chain in which an empty report takes a delivery back |
| Outcomes.AwaitsThisSegmentsReview | src/internal/history/outcome.go:46-66 | awaiting review is given exactly when no commit is reported and the last review offered, after the last run_resumed, is open |
| Outcomes.ReviewNamesCheck | src/internal/history/history.go:476-488 | the review is the last one offered, and its check is what the last phase_checked entry before it with the hash it names found, none exactly when there is none |
| Outcomes.RunningExactly | src/internal/history/outcome.go:46-72 | running is given exactly when no commit is reported, no lost launch waits for its owner, and every review offered and every end of a segment was followed by a resume |
| ChainOutcomes.RunningOnChain | src/internal/history/outcome.go:46-72 | the same of the entries alone: a lost launch waits when three claims have no known end, or the last has none and nobody acknowledged it, on a chain that nothing sealed and whose last segment was at most stopped |
| ChainOutcomes.WaitsOnChain | src/internal/history/outcome.go:149-166 | whether a lost launch waits for its owner, from the chain's claims, ends and acknowledgements |
| Outcomes.UnfinishedDeliveryWaits | src/internal/history/outcome.go:67-78 | a delivery prepared or authorized but not finished is never failed or no change, unless the last segment offered a review: it is running, blocked or, where a commit is reported all the same, delivered |
| Outcomes.NoChangeApprovedNothing | src/internal/history/outcome.go:79-134 | no change is given only when the segment succeeded, the chain approved no file change and nothing is parked; ChainOutcomes.NoChangeExactly has both directions |
| ChainOutcomes.NoChangeExactly | src/internal/history/outcome.go:38-134 | no change is given exactly when no commit is reported, every review offered was followed by a resume, the last segment ended in success, no delivery is unfinished, nothing was approved and nothing is parked, each in terms of the entries |
| Queries.FinalReviewed | src/internal/history/history.go:671-687 | of an accepted chain: an error exactly when a final review after the last approval approved other bytes, true exactly when there is one and all such approved these |
| Queries.LastApproval | src/internal/history/history.go:672-675 | the position of the last approved file change |
| Queries.ReviewedAfter | src/internal/history/history.go:676-686 | the verdict over the decisions from a position on |
| Queries.Adopted | src/internal/history/history.go:700-708 | the proposals an approved decision names, each with the position of one that does |
| Queries.Parked | src/internal/history/history.go:711-720 | the decisions marked parked that no approved decision names, none exactly when nothing is parked for the owner |
| Queries.ParkedUntilAdopted | src/internal/history/history.go:700-720 | of an accepted chain: a proposal counts as adopted exactly when an approved decision on the chain names it |
| Newlines.AllCRLFIsPaired | src/internal/orchestrator/approval.go:564-567 | comparing three counts says that every CR is followed by an LF, every LF preceded by a CR, and there is one |
| Newlines.EditKeepsLineBreaks | src/internal/orchestrator/approval.go:197-216 | an edit keeps its file's line breaks: a file without CR stays without, and one of both kinds comes out with LF only, exactly when the replacement holds no lone CR; a file whose breaks are all paired keeps them so exactly then too or, when the search block holds a lone CR, exactly when the replacement's one lone CR is its last byte |
| Newlines.MidBreakEdit | src/internal/orchestrator/approval.go:197-216 | an edit whose blocks end in a lone CR, of a file with CRLF throughout, which keeps it so |
| EditMeaning.EditIsPlain | src/internal/orchestrator/approval.go:197-216 | read with universal newlines, an edit of any file is the plain one: the first place its search block occurs, replaced; it is refused exactly when there is none (blocks without a lone CR) |
| EditMeaning.DosFind | src/internal/orchestrator/approval.go:204-211 | the block is found in a CRLF file exactly where its lines are found among the file's lines |
| Paths.CleanMeans | src/internal/orchestrator/approval.go:579-592 | two slashes in a row are one, "." can be left out, and so can a name with the ".." after it: with them a path is accepted when it is without, and cleaned to the same |
| Paths.CleanIsSettled | src/internal/orchestrator/approval.go:579-592 | an accepted path is relative, has no empty, "." or ".." component, is outside .git, and is cleaned to itself |
| Paths.CleanCanonical | src/internal/orchestrator/approval.go:579-592 | a path as a repository names it is accepted unchanged, and refused exactly when it is inside .git |
| Approvals.Record.Derive | src/internal/orchestrator/approval.go:125-219 | the loop over the edits derives what the specification function says, and gives its first refusal; it changes nothing |
| Approvals.Record.DeriveEdit | src/internal/orchestrator/approval.go:127-217 | one edit sees the state of the edits before it, then what was recorded, then the base |
| Approvals.Record.Adopt | src/internal/orchestrator/approval.go:232-236 | recording puts the derived state over what was recorded, and keeps every key a clean path |
| Approvals.DerivedInParts | src/internal/orchestrator/approval.go:125-236 | deriving a list of edits is deriving its parts with the first recorded in between: same state, same refusal |
| Approvals.DerivedKeysClean | src/internal/orchestrator/approval.go:144-147 | every path a proposal changes is one the trust boundary accepts, as it leaves it |
| Rebuild.FlatDerive | docs/spec/rebuild_vectors.py:43-99 | the reference's loop over one proposal |
| Rebuild.FlatRebuild | docs/spec/rebuild_vectors.py:129-137 | the reference's loop over a ledger, changing one flat map |
| Rebuild.RebuildState | src/internal/orchestrator/ledger.go:119-125 | the program's loop over a ledger, deriving and recording |
| Rebuild.DerivesAlike | src/internal/orchestrator/approval.go:125-219 | one proposal: where only the program accepts, its base64 has line breaks; where only the reference does, its text is not UTF-8; and where both do, the same paths get the same bytes and modes |
| Rebuild.RebuildsAlike | docs/spec/rebuild_vectors.py:129-137 | a whole ledger, over any base of regular files: but for those two exceptions it is accepted alike, and the overlay is the reference's flat map |
| Rebuild.BrokenBase64Differs | docs/spec/rebuild_vectors.py:60-75 | a new file whose base64 has a line break, which the program derives and the reference refuses |
| Rebuild.RawBytesDiffer | src/internal/orchestrator/approval.go:138-143 | a new file whose text is not UTF-8, which the program refuses and the reference takes |
| Worktree.ChangeIsWhole | src/internal/orchestrator/approval.go:281-318 | of one path: nothing is listed only when the file is the approved one, and a listed edit, if it can be approved, means exactly the file's bytes and mode |
| Worktree.ChangesAreWhole | src/internal/orchestrator/approval.go:264-321 | listed in order and derived together, the edits make each path's approved state what the worktree holds |
| Worktree.Checkout.WorktreeChanges | src/internal/orchestrator/approval.go:264-321 | the loop lists the changes of the paths that git's status or the approved state name |
| Worktree.Checkout.Restore | src/internal/orchestrator/approval.go:325-343 | each path gets its approved content, the base's, or no file; it stops at the first path whose state cannot be read, the ones before it put back |
| Worktree.Checkout.Verify | src/internal/orchestrator/approval.go:384-431 | lists exactly the violations: a moved branch, an approved path that something else than a file has taken, one with other content, a change nobody approved |
| Worktree.Checkout.Apply | src/internal/orchestrator/agent.go:120-145 | each proposed path holds its approved content, and the rest of the worktree is unchanged; it stops, with some of them written, exactly when a path is refused or something else than a file has taken one |
| Worktree.ApplyFiles | src/internal/orchestrator/ledger.go:143-173 | the committed tree is the base's with the approved state applied |
| Finalize.VerifiedIsCommitted | src/internal/orchestrator/approval.go:384-431 | no violation exactly when the worktree, as far as git sees it, holds the bytes of the tree that is committed, and unapproved paths their modes too |
| Finalize.ModesAreNotVerified | src/internal/orchestrator/approval.go:413-418 | an approved file's mode can differ without a violation |
| Finalize.AcceptedPasses | src/internal/orchestrator/approval.go:264-321 | when the edits that list the worktree's changes are derived and recorded, verify finds no violation |
| Finalize.ViolationListed | src/internal/orchestrator/approval.go:264-321 | every violation's path is among the edits that are listed |
| Finalize.RestoreRemoves | src/internal/orchestrator/approval.go:325-343 | putting paths back removes exactly their violations |
| Finalize.RejectedPasses | src/internal/orchestrator/approval.go:325-343 | when the paths of the listed edits are put back instead, verify finds no violation |
| Finalize.AppliedRemoves | src/internal/orchestrator/agent.go:120-145 | applying and recording a proposal removes exactly the violations of its paths and adds none |
| KeyRotation.NoSecretStranded | src/internal/crypto/rotate.go:112-247 | in every reachable state, with a crash after any step and recovery itself interrupted, the key every secret is under is in the key file or in the temp file the journal names |
| KeyRotation.LoadedKeyOpensAll | src/internal/crypto/encrypt.go:73-102 | a key that is returned opens every stored secret |
| KeyRotation.RotationReturnsSettled | src/internal/crypto/rotate.go:112-247 | a rotation that returns leaves an installed key that opens everything, and no journal unless removing it failed |
| KeyRotation.RollbackSafeIff | src/internal/crypto/rotate.go:121-156 | of one state: removing the temp key of a pending rotation is safe exactly when the installed key opens everything, as it does when no secret opens under the new key |
| KeyRotation.MisreadSafeIff | src/internal/crypto/rotate.go:112-169 | of one state: sweeping the temp files, dropping the journal, or storing a secret while a rotation is pending is safe exactly when the installed key opens everything |
| KeyRotation.UnseenKeyStrands | src/internal/crypto/rotate.go:86-96 | even where the installed key opens everything, missing the temp key in LoadKey strands a secret stored next, unless the two are one key: the journal may stay, and then the temp key is installed after all |
| KeyRotation.SafeExactlyWhenSound | src/internal/crypto/rotate.go:112-247 | of whole runs, whatever the probe answers, whichever reads fail and whenever the process dies: at no point is a secret stranded, nor will one be without something more going wrong, exactly when each answer is right about what the two keys open, and each failing read of a journal or look for a temp key comes when the key file opens everything (where LoadKey alone misses the temp key, when the two are one key) |
| KeyRotation.ExactIsSound | src/cmd/staircase/secret.go:234-245 | in every reachable state, a probe that tells whether a secret opens under the new key is right about them all, and with readable files nothing is misread |
| KeyRotation.MissedProbeStrands | src/cmd/staircase/secret.go:234-245 | a run in which a probe that cannot read the secrets loses them |
| KeyRotation.UnreadJournalStrands | src/internal/crypto/rotate.go:121-169 | a run in which a rotation that cannot read the journal sweeps the only file with the key, without asking the probe |
| KeyWorkspace.Workspace.constructor | src/internal/crypto/rotate.go:112-169 | a command starts on whatever the commands before it left, wherever the last of them died |
| KeyWorkspace.Workspace.RotateKey | src/internal/crypto/rotate.go:112-247 | takes only steps of the protocol; without faults it ends settled, and installs the new key when no rotation was left over |
| KeyWorkspace.Workspace.ResumeIfCommitted | src/internal/crypto/rotate.go:72-97 | finishes a committed rotation, refuses a pending one, and only by steps of the protocol |
| KeyWorkspace.Workspace.LoadKey | src/internal/crypto/encrypt.go:73-102 | returns a key that opens every secret, or refuses; without faults it refuses exactly while a rotation is pending |
| Consume.JournalMatchesChain | src/internal/orchestrator/consume.go:39-108 | in every interleaving with the run's end and with crashes, each approved change has its one journal line with its number and bytes, and a journaled approval that expired is only an unconsumed rejection by the orchestrator |
| Consume.LineOfEachApproval | src/internal/orchestrator/consume.go:87-108 | the line of each approval is the only one with its number, and each line belongs to an approval or an unconsumed rejection of the same bytes |
| Consume.ApprovedWhileLive | src/internal/orchestrator/consume.go:63-76 | the chain grows one decision at a time, and an approval is put on it only by the insert of that very approval, which the process began when the look under the lock said live and has not left since |
| Consume.InsertBeganLive | src/internal/persistence/store_events.go:71-86 | the look just before the insert, for the same proposal, on the same chain, said live; from then on the process has been inserting |
| ConsumeRun.Runner.Consume | src/internal/orchestrator/consume.go:39-81 | takes only steps of the protocol; the decision stays as given only when it was recorded so, and else is the orchestrator's rejection, marked unconsumed exactly when the line was written |
| ConsumeRun.Runner.constructor | src/internal/orchestrator/segment.go:246-253 | a process starts on what earlier ones left: a continuation drops the journal lines that follow the chain's last decision, an adoption takes the journal as it is |
| ConsumeRun.Runner.KeepApproval | src/internal/orchestrator/consume.go:87-108 | ends with the line in a journal that is not torn, adding at most that line, or stops |
| ConsumeRun.Runner.Journaled | src/internal/orchestrator/consume.go:48-59 | after the line is kept, the run is looked at again before the chain |
| ConsumeRun.Runner.AppendIfLive | src/internal/orchestrator/consume.go:61-76 | under the lock, the approval is appended, or its rejection when the run has ended |
| Reconcile.Pair | src/internal/orchestrator/recover_history.go:145-177 | recovery refuses exactly a journal that lacks an approval's request, holds another, or holds a line the chain does not explain; else it keeps the approvals' requests in the chain's order |
| Reconcile.UnconsumedOf | src/internal/history/history.go:658-666 | the journal lines of expired approvals, by number and digest |
| Reconcile.KeptIsApproved | src/internal/orchestrator/recover_history.go:145-177 | what is kept is the approvals, one for one, each with its own request |
| Reconcile.EveryCrashRecovers | src/internal/orchestrator/recover_history.go:145-177 | whatever state a crash left, recovery is not refused |
| DiagLog.Log.Write | src/internal/diag/diag.go:97-103 | takes every byte, keeps the accounts balanced and the files within the bound, and leaves less than a line pending |
| DiagLog.Log.Close | src/internal/diag/diag.go:106-117 | writes what is pending, and a closing marker that always fits, at the end of the file, whenever the log rotated or dropped anything |
| DiagLog.Log.Emit | src/internal/diag/diag.go:176-214 | terminates, cuts text at characters only, and drops no valid UTF-8 by itself |
| DiagLog.Log.Rotate | src/internal/diag/diag.go:229-253 | the file becomes the previous one, what that one held is counted as dropped, and the new file starts with the marker |
| DiagLog.MarkersFit | src/internal/diag/diag.go:27-37 | with counters that fit 64 bits, both markers fit the room kept for them |
| DiagLog.KeepTailWhole | src/internal/diag/diag.go:256-266 | the tail that is kept at open is as long as asked exactly when it starts at a character |
| DiagLog.OpenCutsCharacter | src/internal/diag/diag.go:73-91 | a log over its bound whose cut at open falls in a character: two bytes are gone and one is counted |
| DiagLog.BytesAccounted | src/internal/diag/diag.go:143-253 | bytes written plus markers and earlier content are the bytes in both files, pending, dropped and trimmed |
| DiagLog.NewestSurvives | src/internal/diag/diag.go:176-253 | the two files never exceed the bound and, of a text in UTF-8, hold the newest of what was written: what is gone is a prefix |
| ChainHash.HashV2 | src/internal/chain/chain.go:51-61 | hashes the label and the four fields, each behind its length in eight bytes, the highest first |
| ChainHash.Check | src/internal/chain/chain.go:78-91 | judges each entry by the stored hash of its predecessor, whatever the verdict on that one |
| ChainHash.Verify | src/internal/chain/chain.go:95-102 | passes exactly when every entry is intact, and else names the first that is not |
| ChainHash.PreimageDetermines | src/internal/chain/chain.go:51-61 | the version 2 preimage determines its four fields |
| ChainHash.LastHashBinds | src/internal/chain/chain.go:51-102 | two version 2 chains that verify and end in the same hash agree in length and at every position, or an entry of the one and an entry of the other collide: their hashes are equal and the bytes hashed are not |
| ChainHash.Version1DoesNotBind | src/internal/chain/chain.go:44-47 | two different version 1 chains that verify and end in the same hash |
| ChainHash.Version1BindsIff | src/internal/chain/chain.go:44-47 | two version 1 chains that verify and end in the same hash agree in payload, hash and commit throughout exactly when they are as long and so are their payloads, or entries at one position collide |
| ChainHash.Version1Splits | src/internal/chain/chain.go:44-47 | with previous hashes of one length, the version 1 preimage determines its parts exactly when the payloads are as long |
| ChainHash.RelabelledVersion1 | src/internal/chain/chain.go:64-74 | a chain verifies with any type in place of a version 1 entry's exactly when it did before |
| ChainHash.RelabelledVersion2 | src/internal/chain/chain.go:64-74 | with another type in place of a version 2 entry's, a chain still verifies exactly when the two entries collide |
| Projects.Collector.Collect | src/cmd/staircase/compile.go:220-233 | the depth-first closure adds only what is reached, and leaves open only what was open before |
| Projects.ResolveProjectSet | src/cmd/staircase/compile.go:218-248 | returns exactly the stored projects that the root reaches, each once |
| Projects.Reachable | src/cmd/staircase/dag.go:73-84 | the fixpoint ends, with exactly the ids the root reaches |
| Projects.FilterSubgraph | src/cmd/staircase/dag.go:71-97 | the projects and dependencies that the root reaches, in their order: the same ids as the closure |
| TopoSort.Release | src/internal/engine/dag.go:50-55 | each dependent waits for one less as often as it depends on the project, and is queued exactly when it comes to wait for none |
| TopoSort.TopoSort | src/internal/engine/dag.go:16-74 | each project once, dependencies first; it fails exactly when a project meets a cycle, and then names exactly those that do |
| TopoSort.UnsortedMeetsCycle | src/internal/engine/dag.go:57-69 | what is left with dependencies is exactly what meets a cycle |
| TopoSort.CompileOrder | src/cmd/staircase/compile.go:80-87 | everything the root reaches that the store has, each once, in dependency order; refused exactly when those projects hold a cycle, which is any that the root reaches when the store lacks none |
| ApplyPatch.ParsePatch | src/internal/agent/patch.go:17-108 | the line loop parses what the specification function says, with its errors |
| ApplyPatch.Parser.Line | src/internal/agent/patch.go:66-99 | one line changes the open section as specified |
| ApplyPatch.Parser.Flush | src/internal/agent/patch.go:46-64 | the open section becomes its edits |
| ApplyPatch.Parser.FlushHunk | src/internal/agent/patch.go:32-45 | the open hunk becomes one edit; one that only adds is refused |
| PatchRoundTrip.PrintedIsRead | src/internal/agent/patch.go:17-108 | every printed list of sections is read back as exactly its edits, in order, and is refused exactly when it is empty, an update changes nothing or a hunk has nothing to find |
| PatchRoundTrip.EmptyReplacement | src/internal/agent/patch.go:32-45 | a hunk with lines to find, printed and parsed, is one edit that finds them and replaces them by the hunk's lines exactly when it leaves one; else by a line break |
| PatchRoundTrip.RemovalLeavesLineBreak | src/internal/agent/patch.go:39-40 | a patch that takes a line out of a file, parsed as an edit that leaves an empty one |
| ApprovalServer.NoSendBlocks | src/internal/approvalhttp/server.go:396-407 | in every interleaving, the channel's slot is free when a handler sends and when shutdown rejects |
| ApprovalServer.AtMostOneResponse | src/internal/approvalhttp/server.go:381-425 | each proposal is claimed at most once and its channel gets at most one response, after the claim |
| ApprovalServer.NothingAfterWithdrawal | src/internal/approvalhttp/server.go:312-317 | after a withdrawal that found the proposal waiting, nothing is claimed or sent |
| ApprovalServer.IdsAreNew | src/internal/approvalhttp/server.go:285-308 | no id is given twice |
| ApprovalServer.RepliesAreExact | src/internal/approvalhttp/server.go:381-404 | a decision that names another digest changes nothing; one is accepted exactly while the proposal waits; later it is too late, or not found where only shutdown rejected |
| ApprovalServer.ShutdownIsNotFound | src/internal/approvalhttp/server.go:418-425 | a run in which shutdown rejects a proposal and a later decision finds nothing |
| ApprovalTable.Server.PendSigned | src/internal/approvalhttp/server.go:285-308 | one act of the protocol: a new id, waiting, with an empty channel |
| ApprovalTable.Server.Withdraw | src/internal/approvalhttp/server.go:312-317 | one act of the protocol |
| ApprovalTable.Server.Claim | src/internal/approvalhttp/server.go:381-404 | the critical section of a decision is one act of the protocol, with its reply |
| ApprovalTable.Server.Send | src/internal/approvalhttp/server.go:405-407 | the send after the mutex is released puts the claimed response in the channel, and cannot block |
| ApprovalTable.Server.RejectAll | src/internal/approvalhttp/server.go:418-425 | every waiting proposal gets its rejection and nothing else changes; it does not mark them decided |

## Left out

- Payload decoding: events are decoded records, and a payload that cannot be read is one case; unknown fields are
  ignored.
- Payload fields no rule reads (initiators, sessions, token usage, shell counts, source state), and the texts of
  refusals and halts.
- Timestamps are integers; parsing them is not modelled.
- Outcome reasons: the outcome is modelled, its sentence is not.
- Git, SQLite and the file system: trees are maps from path to file, the chain is an append-only sequence under a
  lock, files change in atomic steps. Directories are not modelled: no path is a file and a directory at once.
- Symbolic links and directories above a path while it is cleaned, and while a proposal is derived; at the path
  itself, anything in the worktree that is not a file is one case, which verifying reports, applying refuses and
  `Finalize.AcceptedPasses` excludes.
- The order of paths, of map iteration and of violations: each loop takes any order.
- The size estimate of an audit record, which refuses a change whose record would be too large.
- Base64, JSON, SHA-256 and encryption: a digest stands for the text it is of, a secret for the key it is under;
  `ChainHash` takes the hash as a function and concludes up to a collision.
- Rotation runs one at a time (its lock is not modelled), the name of a new temp file is new, a transaction that
  fails is rolled back, and each journal write and rename is atomic; syncing to disk is not modelled.
- KeyWorkspace.Workspace: reads of files that exist succeed and the probe is exact, as the code takes for granted; what
  follows when they do not is stated of the protocol only (`KeyRotation.SafeExactlyWhenSound`).
- Consuming a decision: a torn journal line is one flag, the ledger and the barriers are left out, and the signature
  and evidence of a ruling are not carried.
- The diagnostic log: scrubbing secrets, lines longer than its line limit that hold one, and file operations that
  fail.
- TopoSort.TopoSort: project ids are distinct, as the store's keys are; the error names ids, not texts.
- ApplyPatch.ParsePatch: lines end in a line feed; nothing is said of carriage returns.
- The approval server's transport, authentication, listing and pages; a body that is not JSON.
- Projects' and cases' own records, gates, blueprints, prices, profiles, agents, sandboxes and the user interface.
