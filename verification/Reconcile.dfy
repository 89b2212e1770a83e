/** Recovery finds the journaled request of each approval, and never refuses what an interrupted run left. */
module Reconcile {
  import opened Wrappers
  import opened Events
  import opened Consume

  datatype RecoverFault = Missing(n: int) | OtherRequest(n: int) | Unexplained(n: int)

  /** The chain has an unconsumed rejection of this number and request. */
  predicate Expired(chain: seq<Ruling>, l: Line) {
    exists r :: r in chain && r.unconsumed && !r.approved && r.seqNo == l.seqNo && r.requestSum == Sha256(l.request)
  }

  predicate Audited(chain: seq<Ruling>, n: int) {
    exists r :: r in chain && IsApproval(r) && r.seqNo == n
  }

  predicate HasRequest(lines: seq<Line>, r: Ruling) {
    exists l :: l in lines && l.seqNo == r.seqNo && Sha256(l.request) == r.requestSum
  }

  /** Each approval's request is in the journal as it was approved, and every other line expired, has an approval of
      its number or follows the last decision. */
  predicate Recoverable(chain: seq<Ruling>, lines: seq<Line>) {
    && (forall r :: r in chain && IsApproval(r) ==> HasRequest(lines, r))
    && (forall l :: l in lines ==> Expired(chain, l) || Audited(chain, l.seqNo) || l.seqNo > LastDecided(chain))
  }

  /** The requests to commit: those of the approvals, in the chain's order. */
  function KeptOf(chain: seq<Ruling>, lines: seq<Line>): seq<Line> {
    if chain == [] then []
    else
      var r, kept := chain[|chain| - 1], KeptOf(chain[..|chain| - 1], lines);
      if IsApproval(r) && NumberAt(lines, r.seqNo).Some? then kept + [NumberAt(lines, r.seqNo).value] else kept
  }

  function ApprovalsOf(chain: seq<Ruling>): seq<Ruling> {
    if chain == [] then []
    else ApprovalsOf(chain[..|chain| - 1]) + if IsApproval(chain[|chain| - 1]) then [chain[|chain| - 1]] else []
  }

  method BySeq(lines: seq<Line>) returns (bySeq: map<int, Line>)
    requires Distinct(lines)
    ensures forall n :: n in bySeq <==> exists k :: 0 <= k < |lines| && lines[k].seqNo == n
    ensures forall k :: 0 <= k < |lines| ==> bySeq[lines[k].seqNo] == lines[k]
  {
    bySeq := map[];
    for i := 0 to |lines|
      invariant forall n :: n in bySeq <==> exists k :: 0 <= k < i && lines[k].seqNo == n
      invariant forall k :: 0 <= k < i ==> bySeq[lines[k].seqNo] == lines[k]
    {
      bySeq := bySeq[lines[i].seqNo := lines[i]];
    }
  }

  /** The requests of the approvals, in the chain's order; refused exactly when one is missing or has another
      request. */
  method Approvals(chain: seq<Ruling>, j: Journal) returns (r: Result<seq<Line>, RecoverFault>, audited: set<int>)
    requires Distinct(j.lines)
    ensures r.Ok? <==> forall a :: a in chain && IsApproval(a) ==> HasRequest(j.lines, a)
    ensures r.Ok? ==> r.value == KeptOf(chain, j.lines) && forall n :: n in audited <==> Audited(chain, n)
  {
    hide HasRequest, Audited;
    var bySeq := BySeq(j.lines);
    audited := {};
    var kept: seq<Line> := [];
    NoneAudited();
    for i := 0 to |chain|
      invariant forall n :: n in audited <==> Audited(chain[..i], n)
      invariant forall k :: 0 <= k < i && IsApproval(chain[k]) ==> HasRequest(j.lines, chain[k])
      invariant kept == KeptOf(chain[..i], j.lines)
    {
      var a := chain[i];
      assert chain[..i + 1][..i] == chain[..i] && chain[..i + 1] == chain[..i] + [a];
      if IsApproval(a) {
        NumberAtIs(j.lines, bySeq, a.seqNo);
        RequestAt(j, a);
        assert a in chain;
        if a.seqNo !in bySeq {
          return Err(Missing(a.seqNo)), audited;
        }
        var l := bySeq[a.seqNo];
        if Sha256(l.request) != a.requestSum {
          return Err(OtherRequest(a.seqNo)), audited;
        }
        audited := audited + {a.seqNo};
        kept := kept + [l];
      }
      AuditedGrows(chain[..i], a);
    }
    assert chain[..|chain|] == chain;
    return Ok(kept), audited;
  }

  lemma NoneAudited()
    ensures forall n :: !Audited([], n)
  {}

  /** An approval has its request exactly when the line with its number holds it. */
  lemma RequestAt(j: Journal, a: Ruling)
    requires Distinct(j.lines)
    ensures HasRequest(j.lines, a) <==>
        NumberAt(j.lines, a.seqNo).Some? && Sha256(NumberAt(j.lines, a.seqNo).value.request) == a.requestSum
  {
    NumberAtSound(j.lines, a.seqNo);
    if HasRequest(j.lines, a) {
      var l :| l in j.lines && l.seqNo == a.seqNo && Sha256(l.request) == a.requestSum;
      SameNumberSameLine(j, l, NumberAt(j.lines, a.seqNo).value);
    }
  }

  /** Refuses exactly what is not recoverable, and else returns the requests in the chain's order. */
  method Pair(chain: seq<Ruling>, j: Journal) returns (r: Result<seq<Line>, RecoverFault>)
    requires Numbered(chain) && Distinct(j.lines)
    ensures r.Ok? <==> Recoverable(chain, j.lines)
    ensures r.Ok? ==> r.value == KeptOf(chain, j.lines)
  {
    hide HasRequest, Audited, Expired, Numbered, LastDecided;
    var audited;
    r, audited := Approvals(chain, j);
    if r.Err? {
      return;
    }
    var unconsumed := UnconsumedOf(chain);
    for i := 0 to |j.lines|
      invariant forall k :: 0 <= k < i ==>
                  Expired(chain, j.lines[k]) || Audited(chain, j.lines[k].seqNo) ||
                      j.lines[k].seqNo > LastDecided(chain)
    {
      var l := j.lines[i];
      if
        && !(l.seqNo in unconsumed && unconsumed[l.seqNo] == Sha256(l.request))
        && l.seqNo !in audited
        && l.seqNo <= LastDecided(chain)
      {
        assert l in j.lines;
        return Err(Unexplained(l.seqNo));
      }
    }
  }

  /** The unconsumed rejections: proposal number to request digest. */
  method UnconsumedOf(chain: seq<Ruling>) returns (out: map<int, Digest>)
    requires Numbered(chain)
    ensures forall l: Line :: l.seqNo in out && out[l.seqNo] == Sha256(l.request) <==> Expired(chain, l)
  {
    out := map[];
    for i := 0 to |chain|
      invariant forall n :: n in out <==>
          exists k :: 0 <= k < i && chain[k].seqNo == n && chain[k].unconsumed && !chain[k].approved
      invariant forall k :: 0 <= k < i && chain[k].unconsumed && !chain[k].approved ==>
          out[chain[k].seqNo] == chain[k].requestSum
    {
      if chain[i].unconsumed && !chain[i].approved {
        out := out[chain[i].seqNo := chain[i].requestSum];
      }
    }
    forall l: Line ensures l.seqNo in out && out[l.seqNo] == Sha256(l.request) <==> Expired(chain, l) {
      if l.seqNo in out && out[l.seqNo] == Sha256(l.request) {
        var k :| 0 <= k < |chain| && chain[k].seqNo == l.seqNo && chain[k].unconsumed && !chain[k].approved;
        assert chain[k] in chain;
      }
      if Expired(chain, l) {
        var r :| r in chain && r.unconsumed && !r.approved && r.seqNo == l.seqNo && r.requestSum == Sha256(l.request);
        var k :| 0 <= k < |chain| && chain[k] == r;
      }
    }
  }

  lemma AuditedGrows(chain: seq<Ruling>, r: Ruling)
    ensures forall n :: Audited(chain + [r], n) <==> Audited(chain, n) || (IsApproval(r) && r.seqNo == n)
  {
    forall n ensures Audited(chain + [r], n) <==> Audited(chain, n) || (IsApproval(r) && r.seqNo == n) {
      if Audited(chain, n) {
        var q :| q in chain && IsApproval(q) && q.seqNo == n;
        assert q in chain + [r];
      }
      assert r in chain + [r];
    }
  }

  lemma NumberAtIs(lines: seq<Line>, bySeq: map<int, Line>, n: int)
    requires forall m :: m in bySeq <==> exists k :: 0 <= k < |lines| && lines[k].seqNo == m
    requires forall k :: 0 <= k < |lines| ==> bySeq[lines[k].seqNo] == lines[k]
    ensures n in bySeq ==> NumberAt(lines, n) == Some(bySeq[n]) && bySeq[n] in lines && bySeq[n].seqNo == n
    ensures n !in bySeq ==> NumberAt(lines, n).None?
  {
    NumberAtSound(lines, n);
  }

  /** What is kept is the approvals, one for one and in the chain's order, each with its own request. */
  lemma {:induction false} KeptIsApproved(chain: seq<Ruling>, lines: seq<Line>)
    requires Distinct(lines) && forall r :: r in chain && IsApproval(r) ==> HasRequest(lines, r)
    ensures var kept, approvals := KeptOf(chain, lines), ApprovalsOf(chain);
            |kept| == |approvals|
            && forall k :: 0 <= k < |kept| ==>
                kept[k].seqNo == approvals[k].seqNo && Sha256(kept[k].request) == approvals[k].requestSum
  {
    if chain != [] {
      KeptIsApproved(chain[..|chain| - 1], lines);
      var r := chain[|chain| - 1];
      if IsApproval(r) {
        NumberAtSound(lines, r.seqNo);
        var l :| l in lines && l.seqNo == r.seqNo && Sha256(l.request) == r.requestSum;
        SameNumberSameLine(Journal(lines, false), l, NumberAt(lines, r.seqNo).value);
      }
    }
  }

  /** Whatever state a crash left, recovery is not refused: every approval has its request, in the chain's order. */
  lemma EveryCrashRecovers(states: seq<State>, i: nat)
    requires IsRun(states) && i < |states|
    ensures Recoverable(states[i].chain, states[i].journal.lines)
    ensures var kept, approvals := KeptOf(states[i].chain, states[i].journal.lines), ApprovalsOf(states[i].chain);
            |kept| == |approvals|
            && forall k :: 0 <= k < |kept| ==>
                kept[k].seqNo == approvals[k].seqNo && Sha256(kept[k].request) == approvals[k].requestSum
  {
    JournalMatchesChain(states, i);
    hide IsRun, Knows;
    var chain, lines := states[i].chain, states[i].journal.lines;
    forall r | r in chain && IsApproval(r) ensures HasRequest(lines, r) {
      var l :| l in lines && LineOf(l, r);
    }
    forall l | l in lines ensures Expired(chain, l) || Audited(chain, l.seqNo) || l.seqNo > LastDecided(chain) {
      if l.seqNo <= LastDecided(chain) {
        var r :| r in chain && LineOf(l, r);
      }
    }
    KeptIsApproved(chain, lines);
  }
}
