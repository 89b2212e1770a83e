/** The run's active time: what its segments took, and none of the time it was down. */
module ActiveTime {
  import opened Wrappers
  import opened Events
  import opened Replay
  import opened ChainFacts

  predicate StartsSegment(e: Event) {
    e.RunBound? || e.RunResumed?
  }

  /** When the chain's last entry that belongs to a segment was written. */
  function LastActive(es: seq<Entry>): int {
    if es == [] then 0
    else if OutsideSegment(es[|es| - 1].event) then LastActive(es[..|es| - 1])
    else es[|es| - 1].time
  }

  /** Where the last segment starts; |es| while none has. */
  function LastStart(es: seq<Entry>): (s: nat)
    ensures s <= |es|
    ensures s < |es| ==> StartsSegment(es[s].event) && forall i :: s < i < |es| ==> !StartsSegment(es[i].event)
    ensures s == |es| ==> forall i :: 0 <= i < |es| ==> !StartsSegment(es[i].event)
  {
    if es == [] then 0
    else if StartsSegment(es[|es| - 1].event) then |es| - 1
    else
      var s := LastStart(es[..|es| - 1]);
      if s < |es| - 1 then s else |es|
  }

  /** The sum over the segments of the time from the entry that starts the segment to the last entry that belongs to
      it. */
  function Active(es: seq<Entry>): int {
    var s := LastStart(es);
    if s == |es| then 0 else Active(es[..s]) + (LastActive(es) - es[s].time)
  }

  /** The sum over the resumes of the time from the last entry of the segment before to the one that starts the next. */
  function Down(es: seq<Entry>): int {
    var s := LastStart(es);
    if s == |es| || s == 0 then 0 else Down(es[..s]) + (es[s].time - LastActive(es[..s]))
  }

  /** The clock keeps the last segment's start, its last entry so far, and the sum over the segments before it. */
  lemma {:induction false} ClockFacts(es: seq<Entry>)
    requires Accepts(es) && es != []
    ensures var s, c := LastStart(es), FoldOf(es).clock;
            s < |es| && c.start == es[s].time && c.last == LastActive(es) && c.elapsed == Active(es[..s])
  {
    hide Refusal, NextBoard, NextVotes, NextLaunches, NextChecks, NextReview, NextAuthorized, NextSeals, NextTip,
        NextSegment;
    BoundFirst(es);
    var before, e := es[..|es| - 1], es[|es| - 1];
    if before == [] {
      assert es[0] == e && Run(before) == Ok(START) && es[..0] == [];
    } else {
      ClockFacts(before);
      var s := LastStart(before);
      assert es[s] == before[s] && es[..s] == before[..s];
      if StartsSegment(e.event) {
        assert e.event.RunResumed?;
        assert es[..LastStart(es)] == before;
      }
    }
  }

  /** The elapsed time the history gives is the sum over the segments of their active time. */
  lemma ElapsedIsActiveTime(es: seq<Entry>)
    requires Accepts(es)
    ensures HistoryOf(es).elapsed == Active(es)
  {
    if es != [] {
      ClockFacts(es);
      hide Run;
    }
  }

  /** No time is counted twice or lost: from its first entry to its last active one, the run was active or down. */
  lemma ActiveAndDown(es: seq<Entry>)
    requires Accepts(es) && es != []
    ensures HistoryOf(es).elapsed + Down(es) == LastActive(es) - es[0].time
  {
    ElapsedIsActiveTime(es);
    BoundFirst(es);
    hide Run;
    Telescope(es);
  }

  lemma {:induction false} Telescope(es: seq<Entry>)
    requires es != [] && StartsSegment(es[0].event)
    ensures Active(es) + Down(es) == LastActive(es) - es[0].time
  {
    var s := LastStart(es);
    if s == 0 {
      assert es[..0] == [];
    } else {
      Telescope(es[..s]);
    }
  }
}
