/** consume and keepApproval as the code runs them: each write to the journal or the chain, and each look at whether
    the run is live, is a step of the protocol. */
module ConsumeRun {
  import opened Wrappers
  import opened Events
  import opened Consume

  /** What could not be written when a run stops. */
  datatype ConsumeError = JournalWrite | ChainWrite

  /** How the proposal was decided; consuming it can change that in place. */
  class Decided {
    var approved: bool
    var source: string
    var hasNext: bool // whether there is a derived state to record

    constructor (p: Proposal)
      ensures Decides(p)
    {
      approved, source, hasNext := p.approved, p.source, IsChange(p);
    }

    predicate Decides(p: Proposal)
      reads this
    {
      approved == p.approved && source == p.source && hasNext == IsChange(p)
    }

    /** Turns the decision into the orchestrator's rejection. */
    method Expire()
      modifies this
      ensures !approved && !hasNext && source == ORCHESTRATOR
    {
      approved, hasNext, source := false, false, ORCHESTRATOR;
    }
  }

  class Runner {
    var journal: Journal
    var chain: seq<Ruling>
    var live: bool
    const owner: bool

    ghost var at: Place
    ghost var states: seq<State>

    ghost function Now(): State
      reads this
    {
      State(journal, chain, live, owner, at)
    }

    ghost predicate Valid()
      reads this
    {
      IsRun(states) && states[|states| - 1] == Now()
    }

    /** A process starts where earlier ones died: it continues the run, for which the journal is cut to the chain's
        last decision, or is an owner's adoption, which takes it as it is. */
    constructor (ghost before: seq<State>, journal: Journal, chain: seq<Ruling>, owner: bool)
      requires IsRun(before) && before[|before| - 1].at.Down?
      requires before[|before| - 1].journal == journal && before[|before| - 1].chain == chain
      ensures Valid() && at == Ready(LastDecided(chain)) && live && this.owner == owner && this.chain == chain
      ensures this.journal == if owner then journal else Journal(Trimmed(journal.lines, LastDecided(chain)), false)
      ensures states == before + [Now()]
    {
      this.journal := if owner then journal else Journal(Trimmed(journal.lines, LastDecided(chain)), false);
      this.chain, this.owner, live, at := chain, owner, true, Ready(LastDecided(chain));
      new;
      hide Trimmed, LastDecided;
      states := before + [Now()];
    }

    /** The next proposal was decided; an owner's adoption approves a change. */
    method Take(p: Proposal) returns (n: int, rl: Decided)
      requires Valid() && at.Ready? && (owner ==> p.approved && IsChange(p))
      modifies this`at, this`states
      ensures Valid() && old(states) <= states && at == FirstCheck(n, p) && n == old(at.total) + 1
      ensures fresh(rl) && rl.Decides(p)
    {
      JournalMatchesChain(states, |states| - 1);
      hide IsRun, WorldStep, Numbered, Distinct, LinesExplained, DecisionsKept, LastDecided;
      rl := new Decided(p);
      n := LastDecided(chain) + 1;
      Step(FirstCheck(n, p));
    }

    /** The code takes a step that writes nothing. */
    ghost method Step(next: Place)
      requires Valid() && Next(Now(), Now().(at := next))
      modifies this`at, this`states
      ensures Valid() && at == next && states == old(states) + [Now()]
    {
      at := next;
      states := states + [Now()];
    }

    /** A look at the run, which can have ended since the one before. */
    method IsLive() returns (b: bool)
      requires Valid()
      modifies this`live, this`states
      ensures Valid() && b == live && (live ==> old(live)) && old(states) <= states
    {
      var ended: bool := *;
      if ended && !owner {
        live := false;
        states := states + [Now()];
      }
      b := live;
    }

    /** Writes a journal line. A write that fails can leave it cut. */
    method AppendJournal(l: Line, ghost p: Proposal) returns (ok: bool)
      requires Valid() && at == Writing(l.seqNo, p) && l.request == p.request
      modifies this`journal, this`at, this`states
      ensures Valid() && old(states) <= states
      ensures if ok
              then journal == old(journal).(lines := old(journal).lines + [l]) && at == SecondCheck(l.seqNo, p)
              else at == Down
    {
      ok := *;
      if ok {
        journal := journal.(lines := journal.lines + [l]);
        at := SecondCheck(l.seqNo, p);
      } else {
        journal := journal.(torn := true);
        at := Down;
      }
      states := states + [Now()];
    }

    /** A torn last line is dropped, by writing the journal again without it. */
    method Mend(n: int, p: Proposal) returns (ok: bool)
      requires Valid() && at == Keeping(n, p)
      modifies this`journal, this`at, this`states
      ensures Valid() && old(states) <= states
      ensures if ok then at == Scanning(n, p) && journal == Journal(old(journal).lines, false) else at == Down
    {
      hide WorldStep;
      ok := *;
      if journal.torn && !ok {
        at := Down;
      } else {
        journal, at, ok := journal.(torn := false), Scanning(n, p), true;
      }
      states := states + [Now()];
    }

    /** The journal line of approval n, durably: the line that is there when it has exactly these bytes, else a new
        one; never two lines with one number. */
    method KeepApproval(n: int, p: Proposal) returns (ok: bool)
      requires Valid() && at == Keeping(n, p)
      modifies this`journal, this`at, this`states
      ensures Valid() && old(states) <= states
      ensures if ok then at == SecondCheck(n, p) && Line(n, p.request) in journal.lines && !journal.torn else at == Down
      ensures ok ==> journal.lines == old(journal).lines || journal.lines == old(journal).lines + [Line(n, p.request)]
    {
      hide IsRun, WorldStep;
      ok := Mend(n, p);
      if !ok {
        return;
      }
      var i := 0;
      while i < |journal.lines|
        invariant i <= |journal.lines|
        invariant NumberAt(journal.lines, n) == NumberAt(journal.lines[i..], n)
      {
        if journal.lines[i].seqNo == n {
          if journal.lines[i].request == p.request {
            Step(SecondCheck(n, p));
            return true;
          }
          Step(Down);
          return false;
        }
        i := i + 1;
      }
      Step(Writing(n, p));
      ok := AppendJournal(Line(n, p.request), p);
    }

    /** Writes a decision on the chain; the store can fail to. */
    method Append(r: Ruling) returns (ok: bool)
      requires Valid()
      requires (at.Inserting? && r == Approved(at.n, at.p)) ||
          (at.Rejecting? && r == RejectionOf(at.n, at.p, at.journaled, at.expired))
      modifies this`chain, this`at, this`states
      ensures Valid() && old(states) <= states
      ensures if ok then chain == old(chain) + [r] && at == Ready(r.seqNo) else chain == old(chain) && at == Down
    {
      ok := *;
      if ok {
        chain, at := chain + [r], Ready(r.seqNo);
      } else {
        at := Down;
      }
      states := states + [Now()];
    }

    /** The journal's part: an approved change is kept, and the run looked at again. */
    method Journaled(n: int, p: Proposal, rl: Decided) returns (ok: bool)
      requires Valid() && at == Keeping(n, p) && rl.Decides(p) && p.approved && IsChange(p)
      modifies this`journal, this`live, this`at, this`states, rl
      ensures Valid() && old(states) <= states
      ensures !ok ==> at == Down
      ensures ok ==> Line(n, p.request) in journal.lines
      ensures ok && rl.approved ==> at == Locked(n, p) && rl.Decides(p)
      ensures ok && !rl.approved ==>
          at == Rejecting(n, p, true, true) && !live && rl.source == ORCHESTRATOR && !rl.hasNext
    {
      hide IsRun, WorldStep;
      ok := KeepApproval(n, p);
      if ok {
        var alive := IsLive();
        if alive {
          Step(Locked(n, p));
        } else { // journaled, and too late for the chain
          rl.Expire();
          Step(Rejecting(n, p, true, true));
        }
      }
    }

    /** The approval goes on the chain if the run is still live under the chain's append lock, and else its rejection
        does. */
    method AppendIfLive(n: int, p: Proposal, rl: Decided) returns (ok: bool)
      requires Valid() && at == Locked(n, p) && rl.Decides(p) && p.approved
      modifies this`live, this`chain, this`at, this`states, rl
      ensures Valid() && old(states) <= states
      ensures !ok ==> at == Down && chain == old(chain)
      ensures ok && rl.approved ==> chain == old(chain) + [Approved(n, p)] && rl.Decides(p)
      ensures ok && !rl.approved ==> chain == old(chain) + [RejectionOf(n, p, IsChange(p), true)]
                                     && !live && rl.source == ORCHESTRATOR && !rl.hasNext
    {
      hide IsRun, WorldStep;
      var alive := IsLive();
      if alive {
        Step(Inserting(n, p));
        ok := Append(Approved(n, p));
      } else { // the lock was had too late
        rl.Expire();
        Step(Rejecting(n, p, IsChange(p), true));
        ok := Append(RejectionOf(n, p, IsChange(p), true));
      }
    }

    /** Records proposal n's decision, an approved change in the journal first. It stays approved only when every look
        found the run live; else a rejection takes its place, unconsumed exactly when its line is in the journal. */
    method Consume(n: int, p: Proposal, rl: Decided) returns (err: Option<ConsumeError>)
      requires Valid() && at == FirstCheck(n, p) && rl.Decides(p)
      modifies this, rl
      ensures Valid() && old(states) <= states
      ensures err.Some? ==> at == Down && chain == old(chain)
      ensures err.None? && rl.approved ==> chain == old(chain) + [Approved(n, p)] && rl.Decides(p)
                                           && (IsChange(p) ==> Line(n, p.request) in journal.lines)
      ensures err.None? && !rl.approved && p.approved ==>
                && !live && rl.source == ORCHESTRATOR && !rl.hasNext
                && exists journaled :: chain == old(chain) + [RejectionOf(n, p, journaled, true)]
                                       && (journaled ==> IsChange(p) && Line(n, p.request) in journal.lines)
                                       && (!journaled ==> journal == old(journal))
      ensures err.None? && !p.approved ==> chain == old(chain) + [RejectionOf(n, p, false, false)] && rl.Decides(p)
    {
      hide IsRun, WorldStep;
      var expired, journaled := false, false;
      if rl.approved {
        var alive := IsLive();
        if !alive {
          rl.Expire();
          expired := true;
        }
      }
      if rl.approved && rl.hasNext {
        Step(Keeping(n, p));
        var kept := Journaled(n, p, rl);
        if !kept {
          return Some(JournalWrite);
        }
        journaled, expired := true, !rl.approved;
      } else if rl.approved {
        Step(Locked(n, p));
      } else {
        Step(Rejecting(n, p, false, expired));
      }
      hide CodeStep;
      var ok;
      if rl.approved {
        ok := AppendIfLive(n, p, rl);
      } else {
        ok := Append(RejectionOf(n, p, journaled, expired));
      }
      err := if ok then None else Some(ChainWrite);
    }
  }
}
