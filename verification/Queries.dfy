/** What is asked of a finished history: was the approved state reviewed, and what is still parked for the owner. */
module Queries {
  import opened Wrappers
  import opened Events
  import opened Replay
  import M = Matching
  import O = Outcomes

  datatype ReviewFault = OtherBytes

  /** The position of the last approved file change; 0 while there is none. */
  method LastApproval(ds: seq<Decision>) returns (after: nat)
    ensures after == 0 || exists d :: d in ds && IsApproval(d.ruling) && d.index == after
    ensures (forall i, j :: 0 <= i < j < |ds| ==> ds[i].index < ds[j].index) ==>
        forall d :: d in ds && IsApproval(d.ruling) ==> d.index <= after
  {
    after := 0;
    for i := 0 to |ds|
      invariant after == 0 || exists k :: 0 <= k < i && IsApproval(ds[k].ruling) && ds[k].index == after
      invariant (forall i, j :: 0 <= i < j < |ds| ==> ds[i].index < ds[j].index) ==>
                  forall k :: 0 <= k < i && IsApproval(ds[k].ruling) ==> ds[k].index <= after
    {
      if IsApproval(ds[i].ruling) {
        after := ds[i].index;
      }
    }
  }

  /** An approved final review from this position on. */
  predicate ReviewsFrom(d: Decision, after: nat) {
    Final(d.ruling) && d.ruling.approved && d.index >= after
  }

  method ReviewedAfter(ds: seq<Decision>, after: nat, files: map<string, string>) returns (r: Result<bool, ReviewFault>)
    ensures r.Err? <==> exists d :: d in ds && ReviewsFrom(d, after) && d.ruling.files != files
    ensures r == Ok(true) <==>
        (exists d :: d in ds && ReviewsFrom(d, after)) && forall d :: d in ds && ReviewsFrom(d, after) ==>
        d.ruling.files == files
  {
    var reviewed := false;
    for i := 0 to |ds|
      invariant reviewed <==> exists k :: 0 <= k < i && ReviewsFrom(ds[k], after)
      invariant forall k :: 0 <= k < i && ReviewsFrom(ds[k], after) ==> ds[k].ruling.files == files
    {
      var d := ds[i];
      if !Final(d.ruling) || !d.ruling.approved || d.index < after {
        continue;
      }
      if d.ruling.files != files {
        assert d in ds && ReviewsFrom(d, after);
        return Err(OtherBytes);
      }
      reviewed := true;
    }
    assert reviewed ==> exists k :: 0 <= k < |ds| && ds[k] in ds && ReviewsFrom(ds[k], after);
    return Ok(reviewed);
  }

  /** Entry k is an approved final review, and no file change is approved after it. */
  ghost predicate ReviewsLast(es: seq<Entry>, k: nat) {
    && k < |es| && es[k].event.YieldDecided? && Final(es[k].event.ruling) && es[k].event.ruling.approved
    && forall j :: k < j < |es| && es[j].event.YieldDecided? ==> !IsApproval(es[j].event.ruling)
  }

  predicate HasDecision(ds: seq<Decision>, k: nat) {
    exists d :: d in ds && d.index == k + 1
  }

  predicate DecidedAt(es: seq<Entry>, k: nat) {
    k < |es| && es[k].event.YieldDecided?
  }

  /** The decisions are those of the chain, in order. */
  ghost predicate Mirrors(es: seq<Entry>, ds: seq<Decision>) {
    && (forall d :: d in ds ==> 1 <= d.index <= |es| && es[d.index - 1].event == YieldDecided(d.ruling))
    && (forall i, j :: 0 <= i < j < |ds| ==> ds[i].index < ds[j].index)
    && (forall k {:trigger DecidedAt(es, k)} :: DecidedAt(es, k) ==> HasDecision(ds, k))
  }

  lemma DecisionsMirror(es: seq<Entry>)
    requires Accepts(es)
    ensures Mirrors(es, FoldOf(es).board.decisions)
  {
    M.DecisionsAnswerRequests(es);
    hide Run, M.AllOldest, M.NoneLost, M.AllWait, M.UsedOnce, M.Answers;
    var ds := FoldOf(es).board.decisions;
    forall d | d in ds ensures 1 <= d.index <= |es| && es[d.index - 1].event == YieldDecided(d.ruling) {
      M.AnswersIts(es, d);
    }
  }

  /** after is the position of the last approval among the decisions. */
  predicate LastApproved(ds: seq<Decision>, after: nat) {
    && (after == 0 || exists a :: a in ds && IsApproval(a.ruling) && a.index == after)
    && (forall a :: a in ds && IsApproval(a.ruling) ==> a.index <= after)
  }

  lemma DecisionReviews(es: seq<Entry>, ds: seq<Decision>, after: nat, d: Decision)
    requires Mirrors(es, ds) && LastApproved(ds, after) && d in ds && ReviewsFrom(d, after)
    ensures ReviewsLast(es, d.index - 1) && es[d.index - 1].event.ruling == d.ruling
  {
    forall j | d.index <= j < |es| && es[j].event.YieldDecided? ensures !IsApproval(es[j].event.ruling) {
      assert DecidedAt(es, j);
      var a :| a in ds && a.index == j + 1;
    }
  }

  lemma ReviewDecided(es: seq<Entry>, ds: seq<Decision>, after: nat, k: nat) returns (d: Decision)
    requires Mirrors(es, ds) && LastApproved(ds, after) && ReviewsLast(es, k)
    ensures d in ds && ReviewsFrom(d, after) && d.ruling == es[k].event.ruling
  {
    assert DecidedAt(es, k);
    d :| d in ds && d.index == k + 1;
    if after > 0 {
      var a :| a in ds && IsApproval(a.ruling) && a.index == after;
      assert es[after - 1].event == YieldDecided(a.ruling);
    }
  }

  /** Of an accepted chain: whether the final reviews after the last approval approved these files, at least one of
      them and each of them; an error exactly when one of them approved other bytes. */
  method FinalReviewed(ghost es: seq<Entry>, ds: seq<Decision>, files: map<string, string>)
    returns (r: Result<bool, ReviewFault>)
    requires Accepts(es) && ds == FoldOf(es).board.decisions
    ensures r.Err? <==> exists k: nat :: ReviewsLast(es, k) && es[k].event.ruling.files != files
    ensures r == Ok(true) <==>
        (exists k: nat :: ReviewsLast(es, k)) && forall k: nat :: ReviewsLast(es, k) ==>
        es[k].event.ruling.files == files
  {
    DecisionsMirror(es);
    hide Run, Accepts;
    var after := LastApproval(ds);
    r := ReviewedAfter(ds, after, files);
    hide Mirrors, ReviewsFrom;
    if d :| d in ds && ReviewsFrom(d, after) && d.ruling.files != files {
      DecisionReviews(es, ds, after, d);
    } else if d :| d in ds && ReviewsFrom(d, after) {
      DecisionReviews(es, ds, after, d);
    }
    forall k: nat | ReviewsLast(es, k)
        ensures exists d :: d in ds && ReviewsFrom(d, after) && d.ruling == es[k].event.ruling {
      var d := ReviewDecided(es, ds, after, k);
    }
  }

  // ----- parked proposals -----

  /** The proposals an owner took over, each with the position of the decision that last did. */
  method Adopted(ds: seq<Decision>) returns (out: map<int, nat>)
    ensures forall n :: n in out <==> O.Adopted(ds, n)
    ensures forall n :: n in out ==>
        exists d :: d in ds && d.ruling.approved && d.ruling.adopts == n && d.index == out[n]
  {
    out := map[];
    for i := 0 to |ds|
      invariant forall n :: n in out <==>
          exists k :: 0 <= k < i && ds[k].ruling.approved && ds[k].ruling.adopts > 0 && ds[k].ruling.adopts == n
      invariant forall n :: n in out ==>
          exists d :: d in ds && d.ruling.approved && d.ruling.adopts == n && d.index == out[n]
    {
      var d := ds[i];
      if d.ruling.approved && d.ruling.adopts > 0 {
        out := out[d.ruling.adopts := d.index];
      }
    }
    forall n ensures n in out <==> O.Adopted(ds, n) {
      if n in out {
        var k :| 0 <= k < |ds| && ds[k].ruling.approved && ds[k].ruling.adopts > 0 && ds[k].ruling.adopts == n;
        assert ds[k] in ds;
      }
    }
  }

  /** The parked decisions whose number no approved decision names, in order. */
  method Parked(ds: seq<Decision>) returns (out: seq<Decision>)
    ensures forall d :: d in out <==> d in ds && d.ruling.source == "parked" && !O.Adopted(ds, d.ruling.seqNo)
    ensures out != [] <==> O.AnyParked(ds)
  {
    hide O.Adopted;
    out := [];
    var adopted := Adopted(ds);
    for i := 0 to |ds|
      invariant forall d :: d in out <==> d in ds[..i] && d.ruling.source == "parked" && !O.Adopted(ds, d.ruling.seqNo)
    {
      assert ds[..i + 1] == ds[..i] + [ds[i]];
      if ds[i].ruling.seqNo !in adopted && ds[i].ruling.source == "parked" {
        out := out + [ds[i]];
      }
    }
    assert ds[..|ds|] == ds;
    assert out != [] ==> out[0] in out;
  }

  /** Of an accepted chain: a proposal was taken over exactly when an approved decision on the chain names it. */
  lemma ParkedUntilAdopted(es: seq<Entry>, n: int)
    requires Accepts(es) && n > 0
    ensures O.Adopted(FoldOf(es).board.decisions, n) <==>
            exists j ::
              && 0 <= j < |es| && es[j].event.YieldDecided?
              && es[j].event.ruling.approved && es[j].event.ruling.adopts == n
  {
    var ds := FoldOf(es).board.decisions;
    M.DecisionsAnswerRequests(es);
    hide Run, M.AllOldest, M.NoneLost, M.AllWait, M.UsedOnce, M.Answers;
    if O.Adopted(ds, n) {
      var d :| d in ds && d.ruling.approved && d.ruling.adopts > 0 && d.ruling.adopts == n;
      M.AnswersIts(es, d);
    }
    if j :|
         && 0 <= j < |es| && es[j].event.YieldDecided?
         && es[j].event.ruling.approved && es[j].event.ruling.adopts == n
    {
      var d := M.DecisionAt(es, j);
    }
  }
}
