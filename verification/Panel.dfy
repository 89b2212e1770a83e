/** A decision by the run's panel of models rests on their votes: one of each model, all agreeing with it, all before
    it. */
module Panel {
  import opened Wrappers
  import opened Events
  import opened Replay
  import opened ChainFacts
  import M = Matching

  /** Entry hashes are not empty and no two are the same, as the hash chain makes them. */
  ghost predicate DistinctHashes(es: seq<Entry>) {
    && (forall i :: 0 <= i < |es| ==> es[i].hash != "")
    && (forall i, j :: 0 <= i < j < |es| ==> es[i].hash != es[j].hash)
  }

  /** Entry j is a vote by this model, and names this request. */
  predicate VotesAt(es: seq<Entry>, j: nat, model: string, requestEntry: string) {
    j < |es| && es[j].event.ValidatorVoted? && es[j].event.ballot.model == model &&
        es[j].event.ballot.requestEntry == requestEntry
  }

  ghost predicate Holds(votes: seq<Vote>, index: nat) {
    exists v :: v in votes && v.index == index
  }

  ghost predicate VotesOf(es: seq<Entry>, votes: seq<Vote>) {
    && (forall v :: v in votes ==> 1 <= v.index <= |es| && es[v.index - 1].event == ValidatorVoted(v.ballot))
    && (forall j :: 0 <= j < |es| && es[j].event.ValidatorVoted? ==> Holds(votes, j + 1))
  }

  lemma VotesGrow(before: seq<Entry>, e: Entry, votes: seq<Vote>)
    requires VotesOf(before, votes)
    ensures VotesOf(before + [e], NextVotes(votes, |before| + 1, e))
  {
    var es, next := before + [e], NextVotes(votes, |before| + 1, e);
    forall j | 0 <= j < |es| && es[j].event.ValidatorVoted? ensures Holds(next, j + 1) {
      hide Holds;
      if j < |before| {
        assert es[j] == before[j];
        StillHolds(votes, |before| + 1, e, j + 1);
      } else {
        LastHolds(votes, |before| + 1, e);
      }
    }
  }

  lemma StillHolds(votes: seq<Vote>, at: nat, e: Entry, index: nat)
    requires Holds(votes, index)
    ensures Holds(NextVotes(votes, at, e), index)
  {
    var v :| v in votes && v.index == index;
    assert v in NextVotes(votes, at, e);
  }

  lemma LastHolds(votes: seq<Vote>, at: nat, e: Entry)
    requires e.event.ValidatorVoted?
    ensures Holds(NextVotes(votes, at, e), at)
  {
    assert NextVotes(votes, at, e)[|votes|].index == at;
  }

  /** The votes are those the chain holds. */
  lemma {:induction false} VoteFacts(es: seq<Entry>)
    requires Accepts(es)
    ensures VotesOf(es, FoldOf(es).votes)
  {
    hide VotesOf, Refusal, NextBoard, NextLaunches, NextReview, NextTip, NextSeals, NextVotes;
    if es == [] {
      NoVotes();
    } else {
      var before := es[..|es| - 1];
      VoteFacts(before);
      VotesGrow(before, es[|es| - 1], FoldOf(before).votes);
      assert before + [es[|es| - 1]] == es;
    }
  }

  lemma NoVotes()
    ensures VotesOf([], [])
  {}

  lemma VoteNotRefused(before: seq<Entry>, f: Fold, e: Event)
    requires Refusal(before, f, e).None? && e.ValidatorVoted?
    ensures e.ballot.model in f.bound.models
    ensures exists q :: q in f.board.pending && q.entry == e.ballot.requestEntry
    ensures forall v :: v in f.votes ==>
        v.ballot.requestEntry != e.ballot.requestEntry || v.ballot.model != e.ballot.model
  {}

  /** What an accepted vote says: it is by a panel model, on a request that waits, and that model's first on it. */
  lemma VoteAccepted(es: seq<Entry>, j: nat)
    requires Accepts(es) && j < |es| && es[j].event.ValidatorVoted?
    ensures Accepts(es[..j]) && es[j].event.ballot.model in FoldOf(es[..j]).bound.models
    ensures exists q :: q in FoldOf(es[..j]).board.pending && q.entry == es[j].event.ballot.requestEntry
    ensures forall i :: 0 <= i < j ==> !VotesAt(es, i, es[j].event.ballot.model, es[j].event.ballot.requestEntry)
  {
    RunPrefix(es, j);
    hide Run, Next, Refusal, VotesOf, VotesAt;
    VoteNotRefused(es[..j], FoldOf(es[..j]), es[j].event);
    VoteFacts(es[..j]);
    var b := es[j].event.ballot;
    forall i | 0 <= i < j ensures !VotesAt(es, i, b.model, b.requestEntry) {
      NotAmongVotes(es, j, FoldOf(es[..j]).votes, i, b);
    }
  }

  lemma NotAmongVotes(es: seq<Entry>, j: nat, votes: seq<Vote>, i: nat, b: Ballot)
    requires i < j <= |es| && VotesOf(es[..j], votes)
    requires forall v :: v in votes ==> v.ballot.requestEntry != b.requestEntry || v.ballot.model != b.model
    ensures !VotesAt(es, i, b.model, b.requestEntry)
  {
    hide VotesOf;
    assert es[..j][i] == es[i];
    if es[i].event.ValidatorVoted? {
      var v := VoteAt(es[..j], votes, i);
      assert v.ballot == es[i].event.ballot;
    }
  }

  /** The vote that an entry of the chain put in the table. */
  lemma VoteAt(es: seq<Entry>, votes: seq<Vote>, i: nat) returns (v: Vote)
    requires VotesOf(es, votes) && i < |es| && es[i].event.ValidatorVoted?
    ensures v in votes && v.index == i + 1 && es[i].event == ValidatorVoted(v.ballot)
  {
    assert Holds(votes, i + 1);
    hide VotesOf;
    v := VoteIn(votes, i + 1);
    InVotes(es, votes, v);
  }

  lemma VoteIn(votes: seq<Vote>, index: nat) returns (v: Vote)
    requires Holds(votes, index)
    ensures v in votes && v.index == index
  {
    v :| v in votes && v.index == index;
  }

  lemma InVotes(es: seq<Entry>, votes: seq<Vote>, v: Vote)
    requires VotesOf(es, votes) && v in votes
    ensures 1 <= v.index <= |es| && es[v.index - 1].event == ValidatorVoted(v.ballot)
  {
    hide Holds;
  }

  lemma {:induction false} VotedBySound(votes: seq<Vote>, requestEntry: string, model: string) returns (v: Vote)
    requires VotedBy(votes, requestEntry, model).Some?
    ensures v in votes && v.ballot == Ballot(model, requestEntry, VotedBy(votes, requestEntry, model).value)
  {
    v := votes[|votes| - 1];
    if v.ballot.requestEntry != requestEntry || v.ballot.model != model {
      v := VotedBySound(votes[..|votes| - 1], requestEntry, model);
    }
  }

  lemma {:induction false} NoneMissing(models: seq<string>, votes: seq<Vote>, r: Ruling)
    requires MissingVote(models, votes, r).None?
    ensures forall m :: m in models ==> VotedBy(votes, r.requestEntry, m) == Some(Wanted(r))
  {
    if models != [] {
      NoneMissing(models[1..], votes, r);
      assert forall m :: m in models ==> m == models[0] || m in models[1..];
    }
  }

  lemma PanelNotRefused(before: seq<Entry>, f: Fold, e: Event)
    requires before != [] && Refusal(before, f, e).None? && M.DecidesProposal(e) && ByPanel(f.bound.models, e.ruling)
    ensures e.ruling.source == PanelName(f.bound.models) && MissingVote(f.bound.models, f.votes, e.ruling).None?
  {}

  /** What an accepted decision by the panel says of the state before it. */
  lemma PanelAccepted(es: seq<Entry>, k: nat)
    requires Accepts(es) && k < |es| && M.DecidesProposal(es[k].event) &&
        ByPanel(FoldOf(es).bound.models, es[k].event.ruling)
    ensures Accepts(es[..k]) && es[k].event.ruling.source == PanelName(FoldOf(es).bound.models)
    ensures forall m :: m in FoldOf(es).bound.models ==>
              VotedBy(FoldOf(es[..k]).votes, es[k].event.ruling.requestEntry, m) == Some(Wanted(es[k].event.ruling))
  {
    RunPrefix(es, k);
    hide Run, Next, Refusal, MissingVote, PanelName, ByPanel, VotedBy;
    BoundFirst(es);
    BoundFirst(es[..k]);
    var r := es[k].event.ruling;
    assert k > 0 && FoldOf(es[..k]).bound == FoldOf(es).bound;
    PanelNotRefused(es[..k], FoldOf(es[..k]), es[k].event);
    NoneMissing(FoldOf(es).bound.models, FoldOf(es[..k]).votes, r);
  }

  /** Entry j is the only vote of this model on this request, has this verdict and comes before k. */
  ghost predicate OnlyVote(es: seq<Entry>, j: nat, k: nat, model: string, requestEntry: string, verdict: Verdict) {
    && j < k && VotesAt(es, j, model, requestEntry) && es[j].event.ballot.verdict == verdict
    && forall i :: 0 <= i < |es| && VotesAt(es, i, model, requestEntry) ==> i == j
  }

  lemma ModelVoted(es: seq<Entry>, k: nat, m: string) returns (j: nat)
    requires Accepts(es) && k < |es| && M.DecidesProposal(es[k].event) &&
        ByPanel(FoldOf(es).bound.models, es[k].event.ruling)
    requires m in FoldOf(es).bound.models
    ensures j < k &&
        es[j].event == ValidatorVoted(Ballot(m, es[k].event.ruling.requestEntry, Wanted(es[k].event.ruling)))
  {
    var r := es[k].event.ruling;
    PanelAccepted(es, k);
    hide Run, Next, Refusal, VotedBy, ByPanel, M.DecidesProposal, Wanted, VotesOf;
    VoteFacts(es[..k]);
    var v := VotedBySound(FoldOf(es[..k]).votes, r.requestEntry, m);
    InVotes(es[..k], FoldOf(es[..k]).votes, v);
    j := v.index - 1;
    assert es[..k][j] == es[j];
  }

  lemma ModelVotesOnce(es: seq<Entry>, i: nat, j: nat, m: string, requestEntry: string)
    requires Accepts(es) && VotesAt(es, i, m, requestEntry) && VotesAt(es, j, m, requestEntry)
    ensures i == j
  {
    hide Run;
    VoteAccepted(es, j);
    VoteAccepted(es, i);
  }

  lemma ModelVotedOnce(es: seq<Entry>, k: nat, m: string)
    requires Accepts(es) && k < |es| && M.DecidesProposal(es[k].event) &&
        ByPanel(FoldOf(es).bound.models, es[k].event.ruling)
    requires m in FoldOf(es).bound.models
    ensures exists j: nat :: OnlyVote(es, j, k, m, es[k].event.ruling.requestEntry, Wanted(es[k].event.ruling))
  {
    var r := es[k].event.ruling;
    var j := ModelVoted(es, k, m);
    hide Run;
    forall i | 0 <= i < |es| && VotesAt(es, i, m, r.requestEntry) ensures i == j {
      ModelVotesOnce(es, i, j, m, r.requestEntry);
    }
    assert OnlyVote(es, j, k, m, r.requestEntry, Wanted(r));
  }

  /** The request that a decision answers, by name or as the oldest of its kind, gets no vote after it. */
  lemma NoVoteAfter(es: seq<Entry>, d: Decision, j: nat)
    requires Accepts(es) && DistinctHashes(es) && d in FoldOf(es).board.decisions && d.request.Some?
    requires d.index <= j < |es| && es[j].event.ValidatorVoted?
    ensures es[j].event.ballot.requestEntry != d.request.value.entry
  {
    var before := es[..j];
    VoteAccepted(es, j);
    M.DecidedBefore(es, d, j);
    M.DecisionAnswers(before, d);
    assert M.Requested(before, d.request.value);
    hide Run, Next, Refusal, M.Answers, M.Requested, DistinctHashes;
    var q :| q in FoldOf(before).board.pending && q.entry == es[j].event.ballot.requestEntry;
    M.WaitingIsUnused(before, q, d);
    OtherHash(es, j, d.request.value, q);
  }

  lemma OtherHash(es: seq<Entry>, j: nat, p: Request, q: Request)
    requires DistinctHashes(es) && j <= |es| && M.Requested(es[..j], p) && M.Requested(es[..j], q) && p.index != q.index
    ensures p.entry != q.entry
  {
    assert es[p.index - 1].hash == p.entry && es[q.index - 1].hash == q.entry;
  }

  /** The request a decision that names one answers. */
  lemma NamedRequest(es: seq<Entry>, k: nat) returns (p: nat)
    requires Accepts(es) && k < |es| && M.DecidesProposal(es[k].event) && es[k].event.ruling.requestEntry != ""
    ensures p < k && es[p].event == YieldRequest(es[k].event.ruling.action) &&
        es[p].hash == es[k].event.ruling.requestEntry
  {
    var d := M.DecisionAt(es, k);
    hide Run;
    p := d.request.value.index - 1;
  }

  /** In every accepted chain that declared a panel, a decision by `validator:` on a proposal is by that whole panel,
      names its request, and rests on exactly one vote of each model on that request, each agreeing with it and
      before it; and no vote on that request comes after it. */
  lemma PanelDecisionRestsOnVotes(es: seq<Entry>, k: nat)
    requires Accepts(es) && DistinctHashes(es) && k < |es|
    requires M.DecidesProposal(es[k].event) && ByPanel(FoldOf(es).bound.models, es[k].event.ruling)
    ensures var models, r := FoldOf(es).bound.models, es[k].event.ruling;
            && r.source == PanelName(models)
            && (exists p :: 0 <= p < k && es[p].event == YieldRequest(r.action) && es[p].hash == r.requestEntry)
            && (forall m :: m in models ==> exists j: nat :: OnlyVote(es, j, k, m, r.requestEntry, Wanted(r)))
            && (forall j :: k < j < |es| && es[j].event.ValidatorVoted? ==>
                es[j].event.ballot.requestEntry != r.requestEntry)
  {
    var models, r := FoldOf(es).bound.models, es[k].event.ruling;
    PanelAccepted(es, k);
    hide Run, Next, Refusal, VotedBy, PanelName;
    forall m | m in models ensures exists j: nat :: OnlyVote(es, j, k, m, r.requestEntry, Wanted(r)) {
      ModelVotedOnce(es, k, m);
    }
    assert models[0] in models;
    var j: nat :| OnlyVote(es, j, k, models[0], r.requestEntry, Wanted(r));
    VoteNamesRequest(es, j);
    var p := NamedRequest(es, k);
    var d := M.DecisionAt(es, k);
    forall j | k < j < |es| && es[j].event.ValidatorVoted? ensures es[j].event.ballot.requestEntry != r.requestEntry {
      NoVoteAfter(es, d, j);
    }
  }

  lemma VoteNamesRequest(es: seq<Entry>, j: nat)
    requires Accepts(es) && DistinctHashes(es) && j < |es| && es[j].event.ValidatorVoted?
    ensures es[j].event.ballot.requestEntry != ""
  {
    VoteAccepted(es, j);
    hide Run, Next, Refusal;
    var q :| q in FoldOf(es[..j]).board.pending && q.entry == es[j].event.ballot.requestEntry;
    M.WaitingIsRequested(es[..j], q);
    assert es[..j][q.index - 1] == es[q.index - 1];
  }

  /** The rule does not reach a final review: the replay accepts one by `validator:` that no model voted on. */
  lemma FinalReviewNeedsNoVotes() returns (es: seq<Entry>)
    ensures Accepts(es) && DistinctHashes(es)
    ensures |es| == 2 && es[1].event.YieldDecided? && ByPanel(FoldOf(es).bound.models, es[1].event.ruling)
    ensures forall j :: 0 <= j < |es| ==> !es[j].event.ValidatorVoted?
  {
    var r := Ruling(1, VALIDATOR_PREFIX, FinalReview, true, NoDigest, "", map[], false, 0);
    var e1, e2 := Entry(RunBound(Bound("b", "t", ["m"])), "h1", 0), Entry(YieldDecided(r), "h2", 0);
    es := [] + [e1] + [e2];
    BoundAlone(e1);
    FinalTaken([e1], FoldOf([e1]), r);
    TwoHashes(e1, e2);
    hide Run, Refusal, NextBoard, NextLaunches, NextReview, NextTip, NextSeals, NextClock, NextSegment, NextVotes,
        NextChecks, NextAuthorized, VALIDATOR_PREFIX, DistinctHashes;
    RunSnoc([e1], e2);
    assert es == [e1] + [e2];
  }

  lemma TwoHashes(e1: Entry, e2: Entry)
    requires e1.hash == "h1" && e2.hash == "h2"
    ensures DistinctHashes([e1] + [e2])
  {
    assert e1.hash[1] != e2.hash[1];
  }

  /** The number of the last yield_decided, 0 when there is none. */
  function LastNumber(es: seq<Entry>): int {
    if es == [] then 0
    else if es[|es| - 1].event.YieldDecided? then es[|es| - 1].event.ruling.seqNo
    else LastNumber(es[..|es| - 1])
  }

  lemma NumberAfter(b: Board, n: nat, e: Entry)
    ensures NextBoard(b, n, e).lastDecided == if e.event.YieldDecided? then e.event.ruling.seqNo else b.lastDecided
  {}

  lemma {:induction false} LastNumberIs(es: seq<Entry>)
    requires Accepts(es)
    ensures FoldOf(es).board.lastDecided == LastNumber(es)
  {
    if es != [] {
      var before := es[..|es| - 1];
      hide Refusal, NextBoard;
      LastNumberIs(before);
      NumberAfter(FoldOf(before).board, |es|, es[|es| - 1]);
    }
  }

  /** Whatever was voted: a final review is accepted exactly when nothing ended the chain, no delivery was
      authorized, and its number is higher than that of the decision before it. */
  lemma FinalReviewAcceptedIff(es: seq<Entry>, e: Entry)
    requires Accepts(es) && es != [] && e.event.YieldDecided? && Final(e.event.ruling)
    ensures Accepts(es + [e]) <==>
              !Seen(es, EndsChain) && !Seen(es, Grants) && e.event.ruling.seqNo > LastNumber(es)
  {
    SealFacts(es);
    LastNumberIs(es);
    FinalTaken(es, FoldOf(es), e.event.ruling);
    hide Run, SeenFrom, LastNumber, Refusal, Next;
    RunSnoc(es, e);
  }

  lemma BoundAlone(e: Entry)
    requires e.event.RunBound?
    ensures Accepts([e]) && var f := FoldOf([e]);
            f.bound == e.event.bound && f.seals.ended == Unsealed && f.board.lastDecided == 0 && f.authorized.None?
  {
    assert Run([]) == Ok(START) && [] + [e] == [e];
    RunSnoc([], e);
    hide Run, NextReview, NextLaunches, NextTip, NextVotes, NextClock, NextChecks, NextSegment;
  }

  /** No vote is looked at for a final review. */
  lemma FinalTaken(before: seq<Entry>, f: Fold, r: Ruling)
    requires before != [] && Final(r)
    ensures Refusal(before, f, YieldDecided(r)).None? <==>
        f.authorized.None? && f.seals.ended == Unsealed && r.seqNo > f.board.lastDecided
  {}
}
