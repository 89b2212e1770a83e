/** Each decision on a proposal uses up one earlier request of its segment and kind, and no other decision does. */
module Matching {
  import opened Wrappers
  import opened Events
  import opened Replay
  import opened ChainFacts

  /** q is a request the chain holds, where q says. */
  predicate Requested(es: seq<Entry>, q: Request) {
    1 <= q.index <= |es| && es[q.index - 1].event == YieldRequest(q.action) && es[q.index - 1].hash == q.entry
  }

  predicate DecidesProposal(e: Event) {
    e.YieldDecided? && !Final(e.ruling)
  }

  predicate Requests(e: Event) {
    e.YieldRequest?
  }

  /** d is a decision the chain holds, and if it is not on a final review it answers an earlier request of its segment
      and kind: the one it names, when it names one. */
  ghost predicate Answers(es: seq<Entry>, d: Decision) {
    && 1 <= d.index <= |es| && es[d.index - 1].event == YieldDecided(d.ruling) && es[d.index - 1].hash == d.entry
    && (d.request.None? <==> Final(d.ruling))
    && (d.request.Some? ==>
          var q := d.request.value;
          && Requested(es, q) && q.index < d.index && q.action == d.ruling.action
          && (forall j :: q.index <= j < d.index ==> !es[j].event.RunResumed?)
          && (d.ruling.requestEntry != "" ==> q.entry == d.ruling.requestEntry))
  }

  predicate Uses(d: Decision, p: nat) {
    d.request.Some? && d.request.value.index == p + 1
  }

  /** Some decision among these uses up the request at position p (counted from 0). */
  ghost predicate Used(ds: seq<Decision>, p: nat) {
    exists d :: d in ds && Uses(d, p)
  }

  ghost predicate SameSegment(es: seq<Entry>, from: nat, to: nat) {
    forall j :: from <= j < to && j < |es| ==> !es[j].event.RunResumed?
  }

  /** Of the requests of its kind, a decision that names no entry takes the oldest that is left: the older ones of its
      segment were used up before. */
  ghost predicate TookOldest(es: seq<Entry>, earlier: seq<Decision>, d: Decision) {
    d.request.Some? && d.ruling.requestEntry == "" && d.index <= |es| ==>
      forall p: nat ::
        p + 1 < d.request.value.index && p < |es| && es[p].event == YieldRequest(d.ruling.action) &&
            SameSegment(es, p, d.index)
        ==> Used(earlier, p)
  }

  ghost predicate AllAnswer(es: seq<Entry>, ds: seq<Decision>) {
    forall d :: d in ds ==> Answers(es, d)
  }

  /** In the chain's order, with increasing numbers. */
  ghost predicate Increasing(ds: seq<Decision>, last: int) {
    && (forall i, j :: 0 <= i < j < |ds| ==> ds[i].index < ds[j].index && ds[i].ruling.seqNo < ds[j].ruling.seqNo)
    && (forall d :: d in ds ==> 0 < d.ruling.seqNo <= last)
  }

  ghost predicate AllDecided(es: seq<Entry>, ds: seq<Decision>) {
    forall k :: 0 <= k < |es| && es[k].event.YieldDecided? ==> exists d :: d in ds && d.index == k + 1
  }

  ghost predicate AllOldest(es: seq<Entry>, ds: seq<Decision>) {
    forall i :: 0 <= i < |ds| ==> TookOldest(es, ds[..i], ds[i])
  }

  ghost predicate Ascending(ps: seq<Request>) {
    forall i, j :: 0 <= i < j < |ps| ==> ps[i].index < ps[j].index
  }

  /** The requests that wait, in the chain's order, are of the segment that starts at this position. */
  ghost predicate AllWait(es: seq<Entry>, ps: seq<Request>, start: nat) {
    && (forall q :: q in ps ==> Requested(es, q) && q.index > start)
    && Ascending(ps)
  }

  /** No request is used twice, and none that waits is used. */
  ghost predicate UsedOnce(ps: seq<Request>, ds: seq<Decision>) {
    && (forall i, j :: 0 <= i < j < |ds| && ds[i].request.Some? && ds[j].request.Some? ==>
        ds[i].request.value.index != ds[j].request.value.index)
    && (forall d, q :: d in ds && q in ps && d.request.Some? ==> d.request.value.index != q.index)
  }

  /** Each request of the segment that starts at this position waits or was used up. */
  ghost predicate NoneLost(es: seq<Entry>, ps: seq<Request>, ds: seq<Decision>, start: nat) {
    forall p: nat :: start <= p < |es| && es[p].event.YieldRequest? ==>
        (exists q :: q in ps && q.index == p + 1) || Used(ds, p)
  }

  /** Everything the board says about the chain, in the segment that starts at this position. */
  ghost predicate BoardOf(es: seq<Entry>, b: Board, start: nat) {
    && AllAnswer(es, b.decisions) && Increasing(b.decisions, b.lastDecided) && AllDecided(es, b.decisions) &&
        AllOldest(es, b.decisions)
    && AllWait(es, b.pending, start) && UsedOnce(b.pending, b.decisions) && NoneLost(es, b.pending, b.decisions, start)
    && b.lastDecided >= 0
  }

  // ----- an entry that decides nothing -----

  lemma AnswersGrow(before: seq<Entry>, e: Entry, ds: seq<Decision>)
    requires AllAnswer(before, ds)
    ensures AllAnswer(before + [e], ds)
  {
    forall d | d in ds ensures Answers(before + [e], d) {
      assert Answers(before, d);
    }
  }

  lemma OldestGrow(before: seq<Entry>, e: Entry, ds: seq<Decision>)
    requires AllAnswer(before, ds) && AllOldest(before, ds)
    ensures AllOldest(before + [e], ds)
  {
    var es := before + [e];
    forall i | 0 <= i < |ds| ensures TookOldest(es, ds[..i], ds[i]) {
      var d := ds[i];
      assert Answers(before, d) && TookOldest(before, ds[..i], d);
      forall p: nat | d.request.Some? && d.ruling.requestEntry == "" && p + 1 < d.request.value.index
                      && es[p].event == YieldRequest(d.ruling.action) && SameSegment(es, p, d.index)
        ensures Used(ds[..i], p) {
        assert SameSegment(before, p, d.index) by {
          forall j | p <= j < d.index && j < |before| ensures !before[j].event.RunResumed? {
            assert es[j] == before[j];
          }
        }
      }
    }
  }

  /** A request waits, a resume drops the requests that wait, and the rest changes nothing. */
  lemma WaitGrow(before: seq<Entry>, e: Entry, b: Board, start: nat, next: nat)
    requires !e.event.YieldDecided? && AllWait(before, b.pending, start) &&
        NoneLost(before, b.pending, b.decisions, start)
    requires next == (if e.event.RunResumed? then |before| + 1 else start) && start <= |before|
    ensures var c := NextBoard(b, |before| + 1, e);
            AllWait(before + [e], c.pending, next) && NoneLost(before + [e], c.pending, c.decisions, next)
  {
    hide FindRequest, Answered, Used;
    var es, c := before + [e], NextBoard(b, |before| + 1, e);
    assert c.decisions == b.decisions;
    assert NoneLost(es, c.pending, c.decisions, next) by {
      forall p: nat | next <= p < |es| && es[p].event.YieldRequest?
        ensures (exists q :: q in c.pending && q.index == p + 1) || Used(c.decisions, p) {
        if p == |before| {
          assert c.pending[|b.pending|].index == p + 1;
        } else {
          assert es[p] == before[p];
        }
      }
    }
    hide NoneLost;
    forall q | q in c.pending ensures Requested(es, q) && q.index > next {
      assert q in b.pending || q == Request(es[|before|].event.action, |before| + 1, e.hash);
    }
  }

  lemma UsedOnceGrow(before: seq<Entry>, e: Entry, b: Board)
    requires !e.event.YieldDecided? && AllAnswer(before, b.decisions) && UsedOnce(b.pending, b.decisions)
    ensures UsedOnce(NextBoard(b, |before| + 1, e).pending, b.decisions)
  {
    hide FindRequest, Answered;
    var c := NextBoard(b, |before| + 1, e);
    forall d, q | d in b.decisions && q in c.pending && d.request.Some? ensures d.request.value.index != q.index {
      assert Answers(before, d);
    }
  }

  lemma AllDecidedGrow(before: seq<Entry>, e: Entry, ds: seq<Decision>)
    requires !e.event.YieldDecided? && AllDecided(before, ds)
    ensures AllDecided(before + [e], ds)
  {
    forall k | 0 <= k <= |before| && (before + [e])[k].event.YieldDecided?
        ensures exists d :: d in ds && d.index == k + 1 {
      assert (before + [e])[k] == before[k];
    }
  }

  lemma KeepBoard(before: seq<Entry>, e: Entry, b: Board, start: nat, next: nat)
    requires !e.event.YieldDecided? && BoardOf(before, b, start)
    requires next == (if e.event.RunResumed? then |before| + 1 else start) && start <= |before|
    ensures BoardOf(before + [e], NextBoard(b, |before| + 1, e), next)
  {
    hide AllAnswer, Increasing, AllDecided, AllOldest, AllWait, UsedOnce, NoneLost, FindRequest, Answered;
    AnswersGrow(before, e, b.decisions);
    OldestGrow(before, e, b.decisions);
    WaitGrow(before, e, b, start, next);
    UsedOnceGrow(before, e, b);
    AllDecidedGrow(before, e, b.decisions);
  }

  // ----- a decision -----

  /** c is the board b after the entry e decided, at position |before| + 1. */
  ghost predicate Decided(before: seq<Entry>, e: Entry, b: Board, c: Board) {
    && e.event.YieldDecided?
    && var r := e.event.ruling; var n := |before| + 1;
    && b.lastDecided < r.seqNo == c.lastDecided
    && (Final(r) ==> c.pending == b.pending && c.decisions == b.decisions + [Decision(r, n, e.hash, None)])
    && (!Final(r) ==>
          var at := FindRequest(b.pending, r);
          && at < |b.pending| && b.pending[at].action == r.action
          && c.pending == b.pending[..at] + b.pending[at + 1..]
          && c.decisions == b.decisions + [Decision(r, n, e.hash, Some(b.pending[at]))])
  }

  lemma DecideAnswers(before: seq<Entry>, e: Entry, b: Board, c: Board, start: nat)
    requires Decided(before, e, b, c) && AllAnswer(before, b.decisions) && AllWait(before, b.pending, start)
    requires !SeenFrom(before, start, Resumes)
    ensures AllAnswer(before + [e], c.decisions)
  {
    var es, r := before + [e], e.event.ruling;
    AnswersGrow(before, e, b.decisions);
    if !Final(r) {
      var q := b.pending[FindRequest(b.pending, r)];
      assert Requested(before, q) && q.index > start;
      forall j | q.index <= j < |es| ensures !es[j].event.RunResumed? {
        assert j < |before| ==> !Resumes(before[j].event);
      }
    }
    assert Answers(es, c.decisions[|b.decisions|]);
    assert forall d :: d in c.decisions ==> d in b.decisions || d == c.decisions[|b.decisions|];
  }

  lemma DecideIncreasing(before: seq<Entry>, e: Entry, b: Board, c: Board)
    requires Decided(before, e, b, c) && AllAnswer(before, b.decisions) && Increasing(b.decisions, b.lastDecided) &&
        b.lastDecided >= 0
    ensures Increasing(c.decisions, c.lastDecided)
  {
    forall i | 0 <= i < |b.decisions|
        ensures b.decisions[i].index <= |before| && b.decisions[i].ruling.seqNo <= b.lastDecided {
      assert b.decisions[i] in b.decisions && Answers(before, b.decisions[i]);
    }
  }

  lemma DecideAll(before: seq<Entry>, e: Entry, b: Board, c: Board)
    requires Decided(before, e, b, c) && AllDecided(before, b.decisions)
    ensures AllDecided(before + [e], c.decisions)
  {
    var es := before + [e];
    forall k | 0 <= k < |es| && es[k].event.YieldDecided? ensures exists d :: d in c.decisions && d.index == k + 1 {
      if k == |before| {
        assert c.decisions[|b.decisions|].index == k + 1;
      } else {
        assert es[k] == before[k];
        var d :| d in b.decisions && d.index == k + 1;
        assert d in c.decisions;
      }
    }
  }

  lemma WithoutOne(ps: seq<Request>, at: nat)
    requires at < |ps| && Ascending(ps)
    ensures Ascending(ps[..at] + ps[at + 1..])
    ensures forall q :: q in ps[..at] + ps[at + 1..] ==> q in ps && q.index != ps[at].index
  {
    forall q | q in ps[..at] + ps[at + 1..] ensures q in ps && q.index != ps[at].index {
      if q in ps[..at] {
        var i :| 0 <= i < at && ps[i] == q;
      } else {
        var i :| 0 <= i < |ps| - at - 1 && ps[at + 1..][i] == q;
        assert ps[at + 1 + i] == q;
      }
    }
  }

  /** What still waits, waited; and it is not the request the decision takes. */
  lemma LeftWaiting(before: seq<Entry>, e: Entry, b: Board, c: Board)
    requires Decided(before, e, b, c) && Ascending(b.pending)
    ensures Ascending(c.pending)
    ensures forall q :: q in c.pending ==> q in b.pending
    ensures !Final(e.event.ruling) ==>
              var took := b.pending[FindRequest(b.pending, e.event.ruling)];
              took in b.pending && forall q :: q in c.pending ==> q.index != took.index
  {
    var at := FindRequest(b.pending, e.event.ruling);
    if !Final(e.event.ruling) {
      WithoutOne(b.pending, at);
    }
  }

  lemma DecideWait(before: seq<Entry>, e: Entry, b: Board, c: Board, start: nat)
    requires Decided(before, e, b, c) && AllWait(before, b.pending, start)
    ensures AllWait(before + [e], c.pending, start)
  {
    LeftWaiting(before, e, b, c);
    forall q | q in c.pending ensures Requested(before + [e], q) && q.index > start {
      assert Requested(before, q);
    }
  }

  lemma DecideUsedOnce(before: seq<Entry>, e: Entry, b: Board, c: Board, start: nat)
    requires Decided(before, e, b, c) && AllWait(before, b.pending, start) && UsedOnce(b.pending, b.decisions)
    ensures UsedOnce(c.pending, c.decisions)
  {
    LeftWaiting(before, e, b, c);
    var n := |b.decisions|;
    forall i | 0 <= i < n ensures c.decisions[i] in b.decisions {
      assert c.decisions[i] == b.decisions[i];
    }
    assert forall d :: d in c.decisions ==> d in b.decisions || d == c.decisions[n];
    hide AllWait;
  }

  lemma DecideLoses(before: seq<Entry>, e: Entry, b: Board, c: Board, start: nat)
    requires Decided(before, e, b, c) && NoneLost(before, b.pending, b.decisions, start)
    ensures NoneLost(before + [e], c.pending, c.decisions, start)
  {
    var es, r, ps, at := before + [e], e.event.ruling, b.pending, FindRequest(b.pending, e.event.ruling);
    forall p: nat | start <= p < |es| && es[p].event.YieldRequest?
      ensures (exists q :: q in c.pending && q.index == p + 1) || Used(c.decisions, p) {
      assert es[p] == before[p];
      if q :| q in ps && q.index == p + 1 {
        var i :| 0 <= i < |ps| && ps[i] == q;
        if Final(r) || i < at {
          assert c.pending[i] == q;
        } else if i > at {
          assert c.pending[i - 1] == q;
        } else {
          assert Uses(c.decisions[|b.decisions|], p);
        }
      } else {
        var d :| d in b.decisions && Uses(d, p);
        assert d in c.decisions;
      }
    }
  }

  lemma DecideOldest(before: seq<Entry>, e: Entry, b: Board, c: Board, start: nat)
    requires Decided(before, e, b, c) && AllAnswer(before, b.decisions) && AllOldest(before, b.decisions)
    requires AllWait(before, b.pending, start) && NoneLost(before, b.pending, b.decisions, start)
    requires start <= |before|
    requires if start > 1 then before[start - 1].event.RunResumed?
             else forall p :: 0 <= p < start ==> !before[p].event.YieldRequest?
    ensures AllOldest(before + [e], c.decisions)
  {
    var es, r, ps, n := before + [e], e.event.ruling, b.pending, |b.decisions|;
    OldestGrow(before, e, b.decisions);
    forall i | 0 <= i < n ensures TookOldest(es, c.decisions[..i], c.decisions[i]) {
      assert c.decisions[..i] == b.decisions[..i];
    }
    assert c.decisions[..n] == b.decisions;
    if !Final(r) && r.requestEntry == "" {
      var at := FindRequest(ps, r);
      forall p: nat | p + 1 < ps[at].index && es[p].event == YieldRequest(r.action) && SameSegment(es, p, |es|)
        ensures Used(b.decisions, p) {
        assert before[p] == es[p];
        forall j | p <= j < |before| ensures !before[j].event.RunResumed? {
          assert es[j] == before[j];
        }
        forall q | q in ps && q.action == r.action ensures ps[at].index <= q.index {
          EarlierMatches(ps, r, q);
        }
        OlderIsUsed(before, r.action, ps, b.decisions, start, ps[at].index, p);
      }
    }
    assert TookOldest(es, c.decisions[..n], c.decisions[n]);
  }

  lemma EarlierMatches(ps: seq<Request>, r: Ruling, q: Request)
    requires Ascending(ps) && q in ps && Matches(q, r)
    ensures FindRequest(ps, r) < |ps| && ps[FindRequest(ps, r)].index <= q.index
  {
    var i :| 0 <= i < |ps| && ps[i] == q;
    assert FindRequest(ps, r) <= i;
  }

  /** A request of this segment and kind, older than any that waits, is used. */
  lemma OlderIsUsed(before: seq<Entry>, a: Action, ps: seq<Request>, ds: seq<Decision>, start: nat, first: int, p: nat)
    requires start <= |before| && AllWait(before, ps, start) && NoneLost(before, ps, ds, start)
    requires if start > 1 then before[start - 1].event.RunResumed?
             else forall p :: 0 <= p < start ==> !before[p].event.YieldRequest?
    requires p < |before| && before[p].event == YieldRequest(a) && SameSegment(before, p, |before|)
    requires p + 1 < first && forall q :: q in ps && q.action == a ==> first <= q.index
    ensures Used(ds, p)
  {
    hide Used, SameSegment, Ascending, NoneLost;
    InThisSegment(before, start, a, p);
    WaitsOrUsed(before, ps, ds, start, p);
    if q :| q in ps && q.index == p + 1 {
      assert Requested(before, q);
    }
  }

  lemma WaitsOrUsed(before: seq<Entry>, ps: seq<Request>, ds: seq<Decision>, start: nat, p: nat)
    requires NoneLost(before, ps, ds, start) && start <= p < |before| && before[p].event.YieldRequest?
    ensures (exists q :: q in ps && q.index == p + 1) || Used(ds, p)
  {}

  lemma InThisSegment(before: seq<Entry>, start: nat, a: Action, p: nat)
    requires start <= |before|
    requires if start > 1 then before[start - 1].event.RunResumed?
             else forall p :: 0 <= p < start ==> !before[p].event.YieldRequest?
    requires p < |before| && before[p].event == YieldRequest(a) && SameSegment(before, p, |before|)
    ensures p >= start
  {}

  lemma DecideBoard(before: seq<Entry>, e: Entry, b: Board, c: Board, start: nat)
    requires Decided(before, e, b, c) && BoardOf(before, b, start) && !SeenFrom(before, start, Resumes) &&
        start <= |before|
    requires if start > 1 then before[start - 1].event.RunResumed?
             else forall p :: 0 <= p < start ==> !before[p].event.YieldRequest?
    ensures BoardOf(before + [e], c, start)
  {
    DecideAnswers(before, e, b, c, start);
    DecideIncreasing(before, e, b, c);
    DecideAll(before, e, b, c);
    DecideWait(before, e, b, c, start);
    DecideUsedOnce(before, e, b, c, start);
    DecideLoses(before, e, b, c, start);
    DecideOldest(before, e, b, c, start);
    hide AllAnswer, Increasing, AllDecided, AllOldest, AllWait, UsedOnce, NoneLost;
  }

  // ----- the whole chain -----

  /** What an accepted entry does to the board and to the segment's start. */
  lemma BoardEffect(before: seq<Entry>, f: Fold, e: Entry)
    requires Refusal(before, f, e.event).None?
    ensures var g := Next(before, f, e);
            && g.board == NextBoard(f.board, |before| + 1, e)
            && g.segment.start == (if e.event.RunBound? || e.event.RunResumed? then |before| + 1 else f.segment.start)
            && (e.event.RunBound? ==> before == [])
            && (e.event.YieldDecided? ==> Decided(before, e, f.board, g.board))
            && (!e.event.YieldDecided? ==>
                g.board.decisions == f.board.decisions && g.board.lastDecided == f.board.lastDecided)
            && (before == [] ==> e.event.RunBound?)
  {
    hide PanelRefusal, GrantRefusal, LaunchEndRefusal, AcknowledgeRefusal, VoteRefusal, LaunchRefusal, AuthorizeRefusal,
         NextReview, NextLaunches, NextTip, NextSeals;
  }

  /** In every accepted chain the decisions are the chain's, their numbers increase, and each decision on a proposal
      answers an earlier request of its segment and kind (the one it names, or the oldest left) that no other
      decision answers and that does not wait any more; each request of the last segment was answered or waits. */
  lemma {:induction false} DecisionsAnswerRequests(es: seq<Entry>)
    requires Accepts(es)
    ensures BoardOf(es, FoldOf(es).board, FoldOf(es).segment.start)
  {
    hide BoardOf, Refusal, Next;
    if es == [] {
      EmptyBoard();
    } else {
      var before := es[..|es| - 1];
      DecisionsAnswerRequests(before);
      assert Refusal(before, FoldOf(before), es[|es| - 1].event).None? &&
          FoldOf(es) == Next(before, FoldOf(before), es[|es| - 1]);
      BoardStep(before, es[|es| - 1]);
      assert before + [es[|es| - 1]] == es;
    }
  }

  lemma BoardStep(before: seq<Entry>, e: Entry)
    requires Accepts(before) && Accepts(before + [e]) &&
        BoardOf(before, FoldOf(before).board, FoldOf(before).segment.start)
    requires Refusal(before, FoldOf(before), e.event).None? && FoldOf(before + [e]) == Next(before, FoldOf(before), e)
    ensures BoardOf(before + [e], FoldOf(before + [e]).board, FoldOf(before + [e]).segment.start)
  {
    hide BoardOf, Decided, NextBoard;
    var f := FoldOf(before);
    assert before == [] ==> f == START && before + [e] == [e];
    hide Run;
    BoardEffect(before, f, e);
    hide Refusal, Next;
    if before == [] {
      FirstBoard(e);
    } else {
      SegmentFacts(before);
      BoundFirst(before);
      if e.event.YieldDecided? {
        DecideBoard(before, e, f.board, FoldOf(before + [e]).board, f.segment.start);
      } else {
        KeepBoard(before, e, f.board, f.segment.start, FoldOf(before + [e]).segment.start);
      }
    }
  }

  lemma EmptyBoard()
    ensures BoardOf([], START.board, 0)
  {}

  lemma FirstBoard(e: Entry)
    requires e.event.RunBound?
    ensures BoardOf([e], NextBoard(START.board, 1, e), 1)
  {}

  /** The decision of the entry at position k. */
  lemma DecisionAt(es: seq<Entry>, k: nat) returns (d: Decision)
    requires Accepts(es) && k < |es| && es[k].event.YieldDecided?
    ensures d in FoldOf(es).board.decisions && d.index == k + 1 && d.ruling == es[k].event.ruling && Answers(es, d)
  {
    DecisionsAnswerRequests(es);
    hide Run, AllOldest, NoneLost, Increasing, AllWait, UsedOnce;
    d :| d in FoldOf(es).board.decisions && d.index == k + 1;
    hide Answers;
    assert Answers(es, d);
    assert d.ruling == es[k].event.ruling by { AnswersIts(es, d); }
  }

  lemma AnswersIts(es: seq<Entry>, d: Decision)
    requires Answers(es, d)
    ensures 1 <= d.index <= |es| && es[d.index - 1].event == YieldDecided(d.ruling)
  {}

  lemma OnlyDecisionsAdd(b: Board, n: nat, e: Entry, d: Decision)
    requires d in NextBoard(b, n, e).decisions && d.index < n
    ensures d in b.decisions
  {}

  /** A decision is in the history from the entry that made it on. */
  lemma {:induction false} DecidedBefore(es: seq<Entry>, d: Decision, j: nat)
    requires Accepts(es) && d in FoldOf(es).board.decisions && d.index <= j <= |es|
    ensures Accepts(es[..j]) && d in FoldOf(es[..j]).board.decisions
    decreases |es|
  {
    if j == |es| {
      assert es[..j] == es;
    } else {
      RunPrefix(es, |es| - 1);
      hide Run, Refusal, NextBoard;
      var before := es[..|es| - 1];
      assert es[..|es| - 1 + 1] == es;
      OnlyDecisionsAdd(FoldOf(before).board, |es|, es[|es| - 1], d);
      DecidedBefore(before, d, j);
      assert before[..j] == es[..j];
    }
  }

  /** A decision of the history is where it says it is on the chain. */
  lemma DecisionAnswers(es: seq<Entry>, d: Decision)
    requires Accepts(es) && d in FoldOf(es).board.decisions
    ensures Answers(es, d)
  {
    DecisionsAnswerRequests(es);
    hide Run, AllOldest, NoneLost, Increasing, AllWait, UsedOnce, AllDecided;
  }

  /** A waiting request is on the chain and no decision uses it. */
  lemma WaitingIsUnused(es: seq<Entry>, q: Request, d: Decision)
    requires Accepts(es) && q in FoldOf(es).board.pending && d in FoldOf(es).board.decisions
    ensures Requested(es, q) && (d.request.Some? ==> d.request.value.index != q.index)
  {
    DecisionsAnswerRequests(es);
    hide Run, AllOldest, NoneLost, Increasing, AllAnswer, AllDecided;
  }

  lemma WaitingIsRequested(es: seq<Entry>, q: Request)
    requires Accepts(es) && q in FoldOf(es).board.pending
    ensures Requested(es, q)
  {
    DecisionsAnswerRequests(es);
    hide Run, AllOldest, NoneLost, Increasing, AllAnswer, AllDecided, UsedOnce;
  }

  /** How many entries from position k (counted from 0) on are of this kind. */
  function CountFrom(es: seq<Entry>, k: nat, p: Event -> bool): nat {
    if |es| <= k then 0 else CountFrom(es[..|es| - 1], k, p) + if p(es[|es| - 1].event) then 1 else 0
  }

  /** In the last segment every request was decided or waits: requests = decisions on proposals + undecided. */
  lemma {:induction false} RequestsBalance(es: seq<Entry>)
    requires Accepts(es)
    ensures var start := FoldOf(es).segment.start;
            CountFrom(es, start, Requests) == CountFrom(es, start, DecidesProposal) + HistoryOf(es).undecided
  {
    if es != [] {
      var before, e := es[..|es| - 1], es[|es| - 1];
      var f, g := FoldOf(before), FoldOf(es);
      assert g == Next(before, f, e) && Refusal(before, f, e.event).None? by {
        hide Refusal, Next;
      }
      RequestsBalance(before);
      SegmentFacts(es);
      BoardEffect(before, f, e);
      hide Run, Refusal, Next;
      if before != [] {
        SegmentFacts(before);
      }
    }
  }
}
