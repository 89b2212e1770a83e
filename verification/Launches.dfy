/** The agent's launches: numbered, each ended once by name before the next, and none once the chain is sealed. */
module Launches {
  import opened Wrappers
  import opened Events
  import opened Replay
  import opened ChainFacts

  /** Launch i is the claim the chain holds where it says, with the number i + 1. */
  predicate Claimed(es: seq<Entry>, ls: seq<Launch>, i: nat)
    requires i < |ls|
  {
    var l := ls[i];
    l.claim.attempt == i + 1 && 1 <= l.index <= |es| && es[l.index - 1].event == LaunchClaimed(l.claim) &&
        es[l.index - 1].hash == l.entry
  }

  /** A launch with an outcome has one the code knows, with a class that says whether its end was established. */
  predicate WellEnded(l: Launch) {
    if l.outcome.NoOutcome? then l.failure.NoClass?
    else KnownOutcome(l.outcome) && (Lost(l) <==> l.failure.ClassCleanup? || l.failure.ClassUncertainDispatch?)
  }

  ghost predicate LaunchesOf(es: seq<Entry>, ls: seq<Launch>) {
    && (forall i :: 0 <= i < |ls| ==> Claimed(es, ls, i) && WellEnded(ls[i]))
    && (forall i :: 0 <= i < |ls| - 1 ==> !ls[i].outcome.NoOutcome?)
  }

  /** Each launch_ended names a launch claimed before it, whose outcome is the one it gives. */
  ghost predicate EndsName(es: seq<Entry>, ls: seq<Launch>) {
    forall j :: 0 <= j < |es| && es[j].event.LaunchEnded? ==> EndNames(es[j].event.end, ls, j)
  }

  /** This end, at entry j, names a launch claimed before it. */
  predicate EndNames(p: LaunchEnd, ls: seq<Launch>, j: nat) {
    && 1 <= p.attempt <= |ls| && ls[p.attempt - 1].outcome == p.outcome && KnownOutcome(p.outcome)
    && ls[p.attempt - 1].index <= j && ls[p.attempt - 1].claim.generation == p.generation
  }

  /** No launch ends twice. */
  ghost predicate EndsAscend(es: seq<Entry>) {
    forall i, j :: 0 <= i < j < |es| && es[i].event.LaunchEnded? && es[j].event.LaunchEnded? ==>
      es[i].event.end.attempt < es[j].event.end.attempt
  }

  ghost predicate EndedBy(es: seq<Entry>, index: nat, attempt: int) {
    exists j :: index <= j < |es| && es[j].event.LaunchEnded? && es[j].event.end.attempt == attempt
  }

  /** Each launch with an outcome has its launch_ended after it. */
  ghost predicate AllEnded(es: seq<Entry>, ls: seq<Launch>) {
    forall i :: 0 <= i < |ls| && !ls[i].outcome.NoOutcome? ==> EndedBy(es, ls[i].index, i + 1)
  }

  ghost predicate EndsOf(es: seq<Entry>, ls: seq<Launch>) {
    EndsName(es, ls) && EndsAscend(es) && AllEnded(es, ls)
  }

  /** What an accepted entry says of the launches before it. */
  predicate LaunchRule(ls: seq<Launch>, e: Event) {
    && (e.LaunchClaimed? ==> e.claim.attempt == |ls| + 1 && OpenLaunch(ls).None?)
    && (e.RunResumed? ==> OpenLaunch(ls).None?)
    && (e.LaunchEnded? ==>
          && ls != [] && ls[|ls| - 1].outcome.NoOutcome? && ls[|ls| - 1].claim == Claim(e.end.attempt, e.end.generation)
          && KnownOutcome(e.end.outcome) && (e.end.failure == NoClass || ClassFits(e.end.failure, e.end.outcome)))
    && (e.LaunchAcknowledged? ==>
          && ls != [] && Lost(ls[|ls| - 1]) && !ls[|ls| - 1].outcome.NoOutcome? && ls[|ls| - 1].claim == e.acked
          && !ls[|ls| - 1].acked)
  }

  lemma LaunchEffect(before: seq<Entry>, f: Fold, e: Entry)
    requires Refusal(before, f, e.event).None?
    ensures LaunchRule(f.launches, e.event)
    ensures Next(before, f, e).launches == NextLaunches(f.launches, |before| + 1, e)
  {
    hide DecisionRefusal, VoteRefusal, AuthorizeRefusal, NextBoard, NextReview, NextTip, NextSeals, NextSegment,
        NextClock, NextChecks;
  }

  /** A launch that was claimed and well ended still is, and the new one is claimed. */
  lemma LaunchGrows(before: seq<Entry>, e: Entry, ls: seq<Launch>, i: nat)
    requires LaunchRule(ls, e.event) && i < |NextLaunches(ls, |before| + 1, e)|
    requires i < |ls| ==> Claimed(before, ls, i) && WellEnded(ls[i])
    ensures var next := NextLaunches(ls, |before| + 1, e); Claimed(before + [e], next, i) && WellEnded(next[i])
  {
    if i < |ls| {
      assert (before + [e])[ls[i].index - 1] == before[ls[i].index - 1];
    } else {
      assert (before + [e])[|before|] == e;
    }
  }

  lemma LaunchesGrow(before: seq<Entry>, e: Entry, ls: seq<Launch>)
    requires LaunchesOf(before, ls) && LaunchRule(ls, e.event)
    ensures LaunchesOf(before + [e], NextLaunches(ls, |before| + 1, e))
  {
    hide Claimed, WellEnded, KnownOutcome, ClassOf, ClassFits;
    var next := NextLaunches(ls, |before| + 1, e);
    forall i | 0 <= i < |next| ensures Claimed(before + [e], next, i) && WellEnded(next[i]) {
      LaunchGrows(before, e, ls, i);
    }
  }

  /** An entry keeps the launches it does not end; an outcome is given only to an open last launch. */
  lemma LaunchKept(before: seq<Entry>, e: Entry, ls: seq<Launch>, i: nat)
    requires LaunchRule(ls, e.event) && i < |ls|
    ensures var next := NextLaunches(ls, |before| + 1, e);
            && |ls| <= |next| && next[i].claim == ls[i].claim && next[i].index == ls[i].index
            && (next[i].outcome == ls[i].outcome || (i == |ls| - 1 && e.event.LaunchEnded? && ls[i].outcome.NoOutcome?))
  {}

  lemma EndNamesStill(before: seq<Entry>, e: Entry, ls: seq<Launch>, p: LaunchEnd, j: nat)
    requires LaunchRule(ls, e.event) && EndNames(p, ls, j)
    ensures EndNames(p, NextLaunches(ls, |before| + 1, e), j)
  {
    LaunchKept(before, e, ls, p.attempt - 1);
    hide LaunchRule, NextLaunches;
  }

  lemma EndsNameGrow(before: seq<Entry>, e: Entry, ls: seq<Launch>)
    requires LaunchesOf(before, ls) && EndsName(before, ls) && LaunchRule(ls, e.event)
    ensures EndsName(before + [e], NextLaunches(ls, |before| + 1, e))
  {
    var es, next := before + [e], NextLaunches(ls, |before| + 1, e);
    if e.event.LaunchEnded? {
      assert Claimed(before, ls, |ls| - 1);
      assert EndNames(e.event.end, next, |before|);
    }
    hide EndNames, LaunchRule, NextLaunches, LaunchesOf;
    forall j | 0 <= j < |es| && es[j].event.LaunchEnded? ensures EndNames(es[j].event.end, next, j) {
      if j < |before| {
        assert before[j] == es[j];
        EndNamesStill(before, e, ls, es[j].event.end, j);
      }
    }
  }

  lemma EndsAscendGrow(before: seq<Entry>, e: Entry, ls: seq<Launch>)
    requires LaunchesOf(before, ls) && EndsName(before, ls) && EndsAscend(before) && LaunchRule(ls, e.event)
    ensures EndsAscend(before + [e])
  {
    forall j | 0 <= j < |before| && e.event.LaunchEnded? && before[j].event.LaunchEnded?
      ensures before[j].event.end.attempt < e.event.end.attempt {
      assert Claimed(before, ls, |ls| - 1);
      assert KnownOutcome(ls[before[j].event.end.attempt - 1].outcome);
    }
  }

  lemma AllEndedGrow(before: seq<Entry>, e: Entry, ls: seq<Launch>)
    requires LaunchesOf(before, ls) && AllEnded(before, ls) && LaunchRule(ls, e.event)
    ensures AllEnded(before + [e], NextLaunches(ls, |before| + 1, e))
  {
    var es, next := before + [e], NextLaunches(ls, |before| + 1, e);
    forall i | 0 <= i < |next| && !next[i].outcome.NoOutcome? ensures EndedBy(es, next[i].index, i + 1) {
      if i < |ls| {
        LaunchKept(before, e, ls, i);
        assert Claimed(before, ls, i);
        if !ls[i].outcome.NoOutcome? {
          var j :| ls[i].index <= j < |before| && before[j].event.LaunchEnded? && before[j].event.end.attempt == i + 1;
          assert es[j] == before[j];
        } else {
          assert es[|before|] == e;
        }
      }
    }
  }

  lemma EndsGrow(before: seq<Entry>, e: Entry, ls: seq<Launch>)
    requires LaunchesOf(before, ls) && EndsOf(before, ls) && LaunchRule(ls, e.event)
    ensures EndsOf(before + [e], NextLaunches(ls, |before| + 1, e))
  {
    EndsNameGrow(before, e, ls);
    EndsAscendGrow(before, e, ls);
    AllEndedGrow(before, e, ls);
  }

  /** In every accepted chain launch i has the number i + 1, only the last can lack an outcome, the outcomes are
      those of the launch_ended entries, one for each launch that ended, and a launch that ended is lost exactly when
      its class says so. */
  lemma {:induction false} LaunchesNumberedAndEnded(es: seq<Entry>)
    requires Accepts(es)
    ensures LaunchesOf(es, FoldOf(es).launches) && EndsOf(es, FoldOf(es).launches)
  {
    hide LaunchesOf, EndsOf, Refusal, Next;
    if es == [] {
      NoLaunches();
    } else {
      var before, e := es[..|es| - 1], es[|es| - 1];
      LaunchesNumberedAndEnded(before);
      LaunchEffect(before, FoldOf(before), e);
      LaunchesGrow(before, e, FoldOf(before).launches);
      EndsGrow(before, e, FoldOf(before).launches);
      assert before + [e] == es;
    }
  }

  lemma NoLaunches()
    ensures LaunchesOf([], []) && EndsOf([], [])
  {}

  /** Each launch_acknowledged names a lost launch, and marks it. */
  ghost predicate AcksOf(es: seq<Entry>, ls: seq<Launch>) {
    && (forall j :: 0 <= j < |es| && es[j].event.LaunchAcknowledged? ==> AckNames(es[j].event.acked, ls))
    && (forall i, j :: 0 <= i < j < |es| && es[i].event.LaunchAcknowledged? && es[j].event.LaunchAcknowledged? ==>
          es[i].event.acked.attempt != es[j].event.acked.attempt)
  }

  /** The launch it names ended lost, and is marked. */
  predicate AckNames(c: Claim, ls: seq<Launch>) {
    && 1 <= c.attempt <= |ls| && ls[c.attempt - 1].claim == c && ls[c.attempt - 1].acked && Lost(ls[c.attempt - 1])
    && !ls[c.attempt - 1].outcome.NoOutcome?
  }

  lemma AckNamesStill(before: seq<Entry>, e: Entry, ls: seq<Launch>, c: Claim)
    requires LaunchRule(ls, e.event) && AckNames(c, ls)
    ensures AckNames(c, NextLaunches(ls, |before| + 1, e))
  {
    LaunchKept(before, e, ls, c.attempt - 1);
  }

  lemma AcksGrow(before: seq<Entry>, e: Entry, ls: seq<Launch>)
    requires LaunchesOf(before, ls) && AcksOf(before, ls) && LaunchRule(ls, e.event)
    ensures AcksOf(before + [e], NextLaunches(ls, |before| + 1, e))
  {
    var es, next := before + [e], NextLaunches(ls, |before| + 1, e);
    if e.event.LaunchAcknowledged? {
      assert Claimed(before, ls, |ls| - 1);
      assert AckNames(e.event.acked, next);
      forall j | 0 <= j < |before| && before[j].event.LaunchAcknowledged?
          ensures before[j].event.acked.attempt != e.event.acked.attempt {
        assert AckNames(before[j].event.acked, ls);
      }
    }
    hide AckNames, LaunchRule, NextLaunches, LaunchesOf;
    forall j | 0 <= j < |es| && es[j].event.LaunchAcknowledged? ensures AckNames(es[j].event.acked, next) {
      if j < |before| {
        assert before[j] == es[j];
        AckNamesStill(before, e, ls, es[j].event.acked);
      }
    }
  }

  /** A launch is acknowledged by name, once, and only one that ended lost. */
  lemma {:induction false} AcknowledgedOnce(es: seq<Entry>)
    requires Accepts(es)
    ensures AcksOf(es, FoldOf(es).launches)
  {
    hide LaunchesOf, AcksOf, Refusal, Next;
    if es == [] {
      NoAcks();
    } else {
      var before, e := es[..|es| - 1], es[|es| - 1];
      AcknowledgedOnce(before);
      LaunchesNumberedAndEnded(before);
      LaunchEffect(before, FoldOf(before), e);
      AcksGrow(before, e, FoldOf(before).launches);
      assert before + [e] == es;
    }
  }

  lemma NoAcks()
    ensures AcksOf([], [])
  {}

  /** What a run does while it goes on: launch, resume, vote and decide proposals. */
  predicate Works(e: Event) {
    e.LaunchClaimed? || e.RunResumed? || e.ValidatorVoted? || (e.YieldDecided? && !Final(e.ruling))
  }

  lemma SealedRefuses(before: seq<Entry>, f: Fold, e: Event)
    requires Over(f.seals) || f.authorized.Some?
    requires Refusal(before, f, e).None?
    ensures !Works(e)
  {
    hide VoteRefusal, AuthorizeRefusal, LaunchEndRefusal, AcknowledgeRefusal;
  }

  /** Once a chain is sealed it stays so, and no entry launches, resumes, votes or decides a proposal; only a final
      review is still decided. */
  lemma SealedForGood(es: seq<Entry>, k: nat, j: nat)
    requires Accepts(es) && k <= j <= |es| && Accepts(es[..k]) && FoldOf(es[..k]).seals.sealed != Unsealed
    ensures Accepts(es[..j]) && FoldOf(es[..j]).seals.sealed != Unsealed
    ensures j < |es| ==> !Works(es[j].event)
  {
    RunPrefix(es, j);
    hide Refusal, Next, Run;
    SealFacts(es[..k]);
    SealFacts(es[..j]);
    if Seen(es[..k], Prepares) { SeenLonger(es, k, j, Prepares); }
    if Seen(es[..k], EndsChain) { SeenLonger(es, k, j, EndsChain); }
    if Seen(es[..k], Grants) { SeenLonger(es, k, j, Grants); }
    if j < |es| {
      SealedRefuses(es[..j], FoldOf(es[..j]), es[j].event);
    }
  }

  lemma SeenLonger(es: seq<Entry>, k: nat, j: nat, p: Event -> bool)
    requires k <= j <= |es| && Seen(es[..k], p)
    ensures Seen(es[..j], p)
  {
    var i :| 0 <= i < k && p(es[..k][i].event);
    assert es[..j][i] == es[i];
  }
}
