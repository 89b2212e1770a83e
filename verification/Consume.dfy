/** Consuming a decision: an approved change is kept in the journal before its decision is on the chain, and a run
    that ended consumes nothing more. The process can die between any two steps, and the run can end at any time. */
module Consume {
  import opened Wrappers
  import opened Events

  /** An approved proposal as the journal keeps it: its number and the exact bytes of its request. */
  datatype Line = Line(seqNo: int, request: string)

  /** The journal; torn when a crash cut its last line short. */
  datatype Journal = Journal(lines: seq<Line>, torn: bool)

  /** A proposal with its decision. The run works on a repository, so a file edit, and nothing else, has a derived
      state. */
  datatype Proposal = Proposal(request: string, action: Action, source: string, approved: bool)

  const ORCHESTRATOR := "orchestrator"

  /** A file edit: what an approval writes a journal line for. */
  predicate IsChange(p: Proposal) {
    p.action.FileEdit?
  }

  /** Where the process is in consuming proposal n. */
  datatype Place =
    | Down
    | Ready(total: int)
    | FirstCheck(n: int, p: Proposal)
    | Keeping(n: int, p: Proposal)
    | Scanning(n: int, p: Proposal)
    | Writing(n: int, p: Proposal)
    | SecondCheck(n: int, p: Proposal)
    | Locked(n: int, p: Proposal)
    | Inserting(n: int, p: Proposal)
    | Rejecting(n: int, p: Proposal, journaled: bool, expired: bool)

  /** live: the run has not ended. owner: the process is an owner's adoption of a parked proposal, which nothing
      ends. */
  datatype State = State(journal: Journal, chain: seq<Ruling>, live: bool, owner: bool, at: Place)

  function LastDecided(chain: seq<Ruling>): int {
    if chain == [] then 0 else chain[|chain| - 1].seqNo
  }

  function Approved(n: int, p: Proposal): Ruling {
    Ruling(n, p.source, p.action, true, Sha256(p.request), "", map[], false, 0)
  }

  /** What is recorded of a proposal that is not consumed; an expired one is the orchestrator's. */
  function RejectionOf(n: int, p: Proposal, journaled: bool, expired: bool): Ruling {
    Ruling(n, if expired then ORCHESTRATOR else p.source, p.action, false, Sha256(p.request), "", map[], journaled, 0)
  }

  function NumberAt(lines: seq<Line>, n: int): Option<Line> {
    if lines == [] then None
    else if lines[0].seqNo == n then Some(lines[0])
    else NumberAt(lines[1..], n)
  }

  /** What is left of the journal when the lines numbered after the last decision are dropped. */
  function Trimmed(lines: seq<Line>, last: int): seq<Line> {
    if lines == [] then []
    else if lines[|lines| - 1].seqNo > last then Trimmed(lines[..|lines| - 1], last)
    else Trimmed(lines[..|lines| - 1], last) + [lines[|lines| - 1]]
  }

  /** One step of consume or keepApproval; a write that fails ends the process. */
  predicate CodeStep(s: State, t: State) {
    t.live == s.live && t.owner == s.owner &&
    match s.at
    case Down => false
    case Ready(total) => t.journal == s.journal && t.chain == s.chain && t.at.FirstCheck? && t.at.n == total + 1
                          && (s.owner ==> t.at.p.approved && IsChange(t.at.p))
    case FirstCheck(n, p) =>
      t.journal == s.journal && t.chain == s.chain
      && t.at == (if p.approved && !s.live then Rejecting(n, p, false, true)
                  else if p.approved && IsChange(p) then Keeping(n, p)
                  else if p.approved then Locked(n, p)
                  else Rejecting(n, p, false, false))
    case Keeping(n, p) => // a torn last line is dropped first
      t.chain == s.chain
      && ((t.journal == s.journal.(torn := false) && t.at == Scanning(n, p))
          || (t.journal == s.journal && t.at == Down))
    case Scanning(n, p) =>
      t.journal == s.journal && t.chain == s.chain
      && (match NumberAt(s.journal.lines, n)
          case None => t.at == Writing(n, p)
          case Some(l) => t.at == (if l.request == p.request then SecondCheck(n, p) else Down))
    case Writing(n, p) =>
      t.chain == s.chain
      && ((t.journal == s.journal.(lines := s.journal.lines + [Line(n, p.request)]) && t.at == SecondCheck(n, p))
          || (t.journal == s.journal.(torn := true) && t.at == Down))
    case SecondCheck(n, p) =>
      t.journal == s.journal && t.chain == s.chain
      && t.at == (if s.live then Locked(n, p) else Rejecting(n, p, true, true))
    case Locked(n, p) => // the check under the chain's append lock
      t.journal == s.journal && t.chain == s.chain
      && t.at == (if s.live then Inserting(n, p) else Rejecting(n, p, IsChange(p), true))
    case Inserting(n, p) =>
      t.journal == s.journal
      && ((t.chain == s.chain + [Approved(n, p)] && t.at == Ready(n)) || (t.chain == s.chain && t.at == Down))
    case Rejecting(n, p, j, x) =>
      t.journal == s.journal
      && ((t.chain == s.chain + [RejectionOf(n, p, j, x)] && t.at == Ready(n)) || (t.chain == s.chain && t.at == Down))
  }

  /** What happens around it: the run ends; the process dies, and cuts the line it was writing; a continuation starts
      where the chain's last decision left off, after dropping the lines that were never consumed; or the owner
      adopts a parked proposal. */
  predicate WorldStep(s: State, t: State) {
    || (!s.owner && t == s.(live := false))
    || (t == s.(at := Down))
    || (s.at.Writing? && t == s.(at := Down, journal := s.journal.(torn := true)))
    || (s.at.Down?
        && t == State(Journal(Trimmed(s.journal.lines, LastDecided(s.chain)), false), s.chain, true, false,
                      Ready(LastDecided(s.chain))))
    || (s.at.Down? && t == State(s.journal, s.chain, true, true, Ready(LastDecided(s.chain))))
  }

  predicate Next(s: State, t: State) {
    CodeStep(s, t) || WorldStep(s, t)
  }

  predicate IsRun(states: seq<State>) {
    && states != [] && states[0] == State(Journal([], false), [], true, false, Down)
    && forall i :: 0 <= i < |states| - 1 ==> Next(states[i], states[i + 1])
  }

  // ----- what every reachable state keeps -----

  predicate Numbered(chain: seq<Ruling>) {
    && (forall i, j :: 0 <= i < j < |chain| ==> chain[i].seqNo < chain[j].seqNo)
    && (forall i :: 0 <= i < |chain| ==> 0 < chain[i].seqNo)
  }

  predicate Distinct(lines: seq<Line>) {
    forall i, j :: 0 <= i < j < |lines| ==> lines[i].seqNo != lines[j].seqNo
  }

  /** A line of a decision on the chain: the change it approved, with exactly its request's bytes, or one that
      expired. */
  predicate LineOf(l: Line, r: Ruling) {
    r.seqNo == l.seqNo && r.action.FileEdit? && r.requestSum == Sha256(l.request) && (r.approved || r.unconsumed)
  }

  /** Each journal line is that of a decision on the chain, or the one that follows the last. */
  predicate LinesExplained(j: Journal, chain: seq<Ruling>) {
    forall l :: l in j.lines ==> l.seqNo == LastDecided(chain) + 1 || exists r :: r in chain && LineOf(l, r)
  }

  /** Each decision that approved a change, or expired after it was journaled, has its line; and an unconsumed one is
      a rejection. */
  predicate DecisionsKept(j: Journal, chain: seq<Ruling>) {
    forall r :: r in chain ==>
      && (IsApproval(r) || r.unconsumed ==> exists l :: l in j.lines && LineOf(l, r))
      && (r.unconsumed ==> !r.approved && r.source == ORCHESTRATOR)
  }

  /** Every line is that of a decision on the chain. */
  predicate NoneStale(s: State) {
    forall l :: l in s.journal.lines ==> l.seqNo <= LastDecided(s.chain)
  }

  predicate Kept(s: State, n: int, p: Proposal) {
    Line(n, p.request) in s.journal.lines
  }

  predicate Knows(s: State) {
    var next := LastDecided(s.chain) + 1;
    && (!s.at.Down? && s.owner ==> s.live)
    && match s.at
       case Down => true
       case Ready(total) => total + 1 == next && (s.owner || NoneStale(s))
       case FirstCheck(n, p) => n == next && (if s.owner then p.approved && IsChange(p) else NoneStale(s))
       case Keeping(n, p) => n == next && p.approved && IsChange(p)
       case Scanning(n, p) => n == next && p.approved && IsChange(p)
       case Writing(n, p) => n == next && p.approved && IsChange(p) && NumberAt(s.journal.lines, n).None?
       case SecondCheck(n, p) => n == next && p.approved && IsChange(p) && Kept(s, n, p)
       case Locked(n, p) => n == next && p.approved && (if IsChange(p) then Kept(s, n, p) else NoneStale(s))
       case Inserting(n, p) => n == next && p.approved && (if IsChange(p) then Kept(s, n, p) else NoneStale(s))
       case Rejecting(n, p, j, x) =>
         n == next && !s.owner && (if j then x && IsChange(p) && Kept(s, n, p) else NoneStale(s))
  }

  predicate Inv(s: State) {
    && Numbered(s.chain) && Distinct(s.journal.lines)
    && LinesExplained(s.journal, s.chain) && DecisionsKept(s.journal, s.chain) && Knows(s)
  }

  // ----- each step keeps it -----

  lemma {:induction false} NumberAtSound(lines: seq<Line>, n: int)
    ensures NumberAt(lines, n).Some? ==> NumberAt(lines, n).value in lines && NumberAt(lines, n).value.seqNo == n
    ensures NumberAt(lines, n).None? ==> forall l :: l in lines ==> l.seqNo != n
  {
    if lines != [] && lines[0].seqNo != n {
      NumberAtSound(lines[1..], n);
    }
  }

  lemma {:induction false} TrimmedExactly(lines: seq<Line>, last: int)
    ensures forall l :: l in Trimmed(lines, last) <==> l in lines && l.seqNo <= last
    ensures Distinct(lines) ==> Distinct(Trimmed(lines, last))
  {
    if lines != [] {
      TrimmedExactly(lines[..|lines| - 1], last);
    }
  }

  lemma LastIsHighest(chain: seq<Ruling>)
    requires Numbered(chain)
    ensures forall r :: r in chain ==> 0 < r.seqNo <= LastDecided(chain)
    ensures LastDecided(chain) >= 0
  {}

  /** A decision is added: its number is the next, and the journal has its line if it needs one. */
  lemma Recorded(j: Journal, chain: seq<Ruling>, r: Ruling)
    requires Numbered(chain) && Distinct(j.lines) && LinesExplained(j, chain) && DecisionsKept(j, chain)
    requires r.seqNo == LastDecided(chain) + 1
    requires IsApproval(r) || r.unconsumed ==> exists l :: l in j.lines && LineOf(l, r)
    requires r.unconsumed ==> !r.approved && r.source == ORCHESTRATOR
    requires forall l :: l in j.lines && l.seqNo == r.seqNo ==> LineOf(l, r)
    ensures Numbered(chain + [r]) && LinesExplained(j, chain + [r]) && DecisionsKept(j, chain + [r])
  {
    LastIsHighest(chain);
    var longer := chain + [r];
    assert LastDecided(longer) == r.seqNo;
    assert r in longer;
    forall l | l in j.lines ensures l.seqNo == LastDecided(longer) + 1 || exists q :: q in longer && LineOf(l, q) {
      if l.seqNo != r.seqNo {
        var q :| q in chain && LineOf(l, q);
        assert q in longer;
      }
    }
  }

  lemma WriteKeeps(s: State, t: State)
    requires Inv(s) && s.at.Writing? && CodeStep(s, t) && t.at.SecondCheck?
    ensures Inv(t)
  {
    NumberAtSound(s.journal.lines, s.at.n);
    var l := Line(s.at.n, s.at.p.request);
    assert l in t.journal.lines;
    forall r | r in t.chain && (IsApproval(r) || r.unconsumed)
        ensures exists m :: m in t.journal.lines && LineOf(m, r) {
      var m :| m in s.journal.lines && LineOf(m, r);
      assert m in t.journal.lines;
    }
    forall i, j | 0 <= i < j < |t.journal.lines| ensures t.journal.lines[i].seqNo != t.journal.lines[j].seqNo {
      assert s.journal.lines[i] in s.journal.lines;
    }
  }

  lemma ScanKeeps(s: State, t: State)
    requires Inv(s) && s.at.Scanning? && CodeStep(s, t)
    ensures Inv(t)
  {
    NumberAtSound(s.journal.lines, s.at.n);
    if NumberAt(s.journal.lines, s.at.n).Some? {
      assert NumberAt(s.journal.lines, s.at.n).value == Line(s.at.n, NumberAt(s.journal.lines, s.at.n).value.request);
    }
  }

  lemma SameNumberSameLine(j: Journal, a: Line, b: Line)
    requires Distinct(j.lines) && a in j.lines && b in j.lines && a.seqNo == b.seqNo
    ensures a == b
  {}

  lemma InsertKeeps(s: State, t: State)
    requires Inv(s) && (s.at.Inserting? || s.at.Rejecting?) && CodeStep(s, t)
    ensures Inv(t)
  {
    if t.at.Ready? {
      var n, p := s.at.n, s.at.p;
      var r := t.chain[|t.chain| - 1];
      var l := Line(n, p.request);
      assert s.at.Inserting? ==> r == Approved(n, p);
      assert s.at.Rejecting? ==> r == RejectionOf(n, p, s.at.journaled, s.at.expired);
      if Kept(s, n, p) {
        forall m | m in s.journal.lines && m.seqNo == n ensures m == l {
          SameNumberSameLine(s.journal, m, l);
        }
      }
      Recorded(s.journal, s.chain, r);
      LastIsHighest(s.chain);
    }
  }

  lemma TrimKeeps(s: State, t: State)
    requires Inv(s) && s.at.Down?
    requires t == State(Journal(Trimmed(s.journal.lines, LastDecided(s.chain)), false), s.chain, true, false,
                        Ready(LastDecided(s.chain)))
    ensures Inv(t)
  {
    TrimmedExactly(s.journal.lines, LastDecided(s.chain));
    LastIsHighest(s.chain);
    forall r | r in t.chain && (IsApproval(r) || r.unconsumed)
        ensures exists m :: m in t.journal.lines && LineOf(m, r) {
      var m :| m in s.journal.lines && LineOf(m, r);
      assert m in t.journal.lines;
    }
  }

  lemma OtherStepKeeps(s: State, t: State)
    requires Inv(s) && CodeStep(s, t) && !s.at.Writing? && !s.at.Scanning? && !s.at.Inserting? && !s.at.Rejecting?
    ensures Inv(t)
  {
    hide Numbered, LastDecided;
  }

  lemma CodeStepKeeps(s: State, t: State)
    requires Inv(s) && CodeStep(s, t)
    ensures Inv(t)
  {
    if s.at.Writing? && t.at.SecondCheck? {
      WriteKeeps(s, t);
    } else if s.at.Scanning? {
      ScanKeeps(s, t);
    } else if s.at.Inserting? || s.at.Rejecting? {
      InsertKeeps(s, t);
    } else if !s.at.Writing? {
      OtherStepKeeps(s, t);
    }
  }

  lemma WorldStepKeeps(s: State, t: State)
    requires Inv(s) && WorldStep(s, t)
    ensures Inv(t)
  {
    hide Trimmed;
    if s.at.Down? && t.at.Ready? && !t.owner {
      TrimKeeps(s, t);
    }
  }

  /** In every interleaving of consume with the run ending and with a crash at any step: the decisions are numbered
      in order, each approved change on the chain has exactly one journal line with its number, which holds exactly
      its request's bytes, and a journaled approval that expired is on the chain only as the orchestrator's
      unconsumed rejection. */
  lemma {:induction false} JournalMatchesChain(states: seq<State>, i: nat)
    requires IsRun(states) && i < |states|
    ensures Inv(states[i])
  {
    if i > 0 {
      JournalMatchesChain(states, i - 1);
      hide CodeStep, WorldStep, Inv;
      if CodeStep(states[i - 1], states[i]) {
        CodeStepKeeps(states[i - 1], states[i]);
      } else {
        WorldStepKeeps(states[i - 1], states[i]);
      }
    }
  }

  /** What each kind of decision on the chain has in the journal. */
  lemma LineOfEachApproval(states: seq<State>, i: nat, r: Ruling)
    requires IsRun(states) && i < |states| && r in states[i].chain
    ensures var lines := states[i].journal.lines;
            && (IsApproval(r) ==>
                exists l :: l in lines && l == Line(r.seqNo, l.request) && r.requestSum == Sha256(l.request)
                  && forall m :: m in lines && m.seqNo == r.seqNo ==> m == l)
            && (forall l :: l in lines && l.seqNo == r.seqNo ==>
                  && r.requestSum == Sha256(l.request)
                  && (IsApproval(r) || (r.unconsumed && !r.approved && r.source == ORCHESTRATOR)))
  {
    JournalMatchesChain(states, i);
    hide IsRun, Knows;
    var s := states[i];
    LastIsHighest(s.chain);
    if IsApproval(r) {
      var l :| l in s.journal.lines && LineOf(l, r);
      forall m | m in s.journal.lines && m.seqNo == r.seqNo ensures m == l {
        SameNumberSameLine(s.journal, m, l);
      }
    }
    forall l | l in s.journal.lines && l.seqNo == r.seqNo ensures LineOf(l, r) {
      var q :| q in s.chain && LineOf(l, q);
      SameNumberSameRuling(s.chain, q, r);
    }
  }

  lemma SameNumberSameRuling(chain: seq<Ruling>, a: Ruling, b: Ruling)
    requires Numbered(chain) && a in chain && b in chain && a.seqNo == b.seqNo
    ensures a == b
  {}

  /** States j to i are one insert of proposal n: at j the look under the append lock said that the run was live, and
      from then on the same process has been inserting that proposal's approval, on the same chain. */
  predicate BeganLive(states: seq<State>, j: nat, i: nat, n: int, p: Proposal) {
    && j < i < |states|
    && states[j].at == Locked(n, p) && states[j].live && states[j].chain == states[i].chain
    && forall k :: j < k <= i ==> states[k].at == Inserting(n, p)
  }

  /** An insert that is going on began while the run was live: the look just before it said so. */
  lemma {:induction false} InsertBeganLive(states: seq<State>, i: nat) returns (j: nat)
    requires IsRun(states) && i < |states| && states[i].at.Inserting?
    ensures BeganLive(states, j, i, states[i].at.n, states[i].at.p)
  {
    var s, t := states[i - 1], states[i];
    assert Next(s, t);
    if s.at.Inserting? {
      j := InsertBeganLive(states, i - 1);
    } else {
      j := i - 1;
    }
  }

  /** The chain only grows, one decision at a time, and an approval is put on it only by an insert of that very
      approval that began while the run was live, and that the process has not left since. */
  lemma ApprovedWhileLive(states: seq<State>, i: nat)
    requires IsRun(states) && i + 1 < |states| && states[i + 1].chain != states[i].chain
    ensures |states[i + 1].chain| == |states[i].chain| + 1 && states[i].chain <= states[i + 1].chain
    ensures var r := states[i + 1].chain[|states[i].chain|];
            r.approved ==>
                exists j: nat, n: int, p: Proposal :: BeganLive(states, j, i, n, p) && p.approved && r == Approved(n, p)
  {
    assert Next(states[i], states[i + 1]);
    JournalMatchesChain(states, i);
    hide IsRun, Numbered, Distinct, LinesExplained, DecisionsKept;
    if states[i].at.Inserting? {
      var j := InsertBeganLive(states, i);
    }
  }
}
