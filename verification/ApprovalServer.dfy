/** The approval server's table: each proposal is decided once, whatever the order in which people decide, the run
    withdraws and the server shuts down. A decision is claimed under the mutex and sent after it is released. */
module ApprovalServer {
  import opened Wrappers

  /** A counter, and text nobody can guess. */
  datatype Id = Id(n: nat, nonce: string)

  datatype Response = Response(approved: bool, feedback: string, signer: string)

  /** What has happened, in order. shutdown: the server rejected it, nobody decided. */
  datatype Event = Pended(id: Id) | Withdrew(id: Id) | Claimed(id: Id, r: Response, shutdown: bool)
      | Sent(id: Id, r: Response)

  /** pending: the digest of each proposal's request. channels: the one slot of each proposal's channel. inFlight:
      claimed by a handler that has not sent yet. */
  datatype State = State(pending: map<Id, string>, decided: set<Id>, nextID: nat, channels: map<Id, Option<Response>>,
                         inFlight: map<Id, Response>, log: seq<Event>)

  datatype Act =
    | Pend(nonce: string, challenge: string)
    | Withdraw(id: Id)
    | Decide(id: Id, digest: string, r: Response)
    | Deliver(id: Id)
    | RejectOne(id: Id, reason: string)
    | Receive(id: Id)

  datatype Reply = Accepted | OtherRequest | AlreadyDecided | NotFound

  function Rejection(reason: string): Response {
    Response(false, reason, "")
  }

  function ReplyTo(s: State, id: Id, digest: string): Reply {
    if id in s.pending then (if digest != "" && digest != s.pending[id] then OtherRequest else Accepted)
    else if id in s.decided then AlreadyDecided
    else NotFound
  }

  /** A send to a channel whose slot is taken would block. */
  predicate Enabled(s: State, a: Act) {
    match a
    case Pend(_, _) => true
    case Withdraw(_) => true
    case Decide(_, _, _) => true
    case Deliver(id) => id in s.inFlight && id in s.channels && s.channels[id].None?
    case RejectOne(id, _) => id in s.pending && id in s.channels && s.channels[id].None?
    case Receive(id) => id in s.channels && s.channels[id].Some?
  }

  function After(s: State, a: Act): State
    requires Enabled(s, a)
  {
    match a
    case Pend(nonce, challenge) =>
      var id := Id(s.nextID + 1, nonce);
      s.(nextID := s.nextID + 1, pending := s.pending[id := challenge], channels := s.channels[id := None],
         log := s.log + [Pended(id)])
    case Withdraw(id) => s.(pending := s.pending - {id}, decided := s.decided + {id}, log := s.log + [Withdrew(id)])
    case Decide(id, digest, r) =>
      if ReplyTo(s, id, digest) != Accepted then s
      else s.(pending := s.pending - {id}, decided := s.decided + {id}, inFlight := s.inFlight[id := r],
              log := s.log + [Claimed(id, r, false)])
    case Deliver(id) =>
      s.(channels := s.channels[id := Some(s.inFlight[id])], inFlight := s.inFlight - {id},
         log := s.log + [Sent(id, s.inFlight[id])])
    case RejectOne(id, reason) =>
      var r := Rejection(reason);
      s.(channels := s.channels[id := Some(r)], pending := s.pending - {id},
         log := s.log + [Claimed(id, r, true)] + [Sent(id, r)])
    case Receive(id) => s.(channels := s.channels[id := None])
  }

  const START := State(map[], {}, 0, map[], map[], [])

  /** Any interleaving of handlers, runs and shutdown: each act is one critical section or one send. */
  ghost predicate IsRun(states: seq<State>) {
    && states != [] && states[0] == START
    && forall i :: 0 <= i < |states| - 1 ==> Steps(states[i], states[i + 1])
  }

  ghost predicate Steps(s: State, t: State) {
    exists a :: Enabled(s, a) && t == After(s, a)
  }

  // ----- one proposal's life -----

  datatype Stage = Unknown | Waiting | Taken(r: Response) | Answered(r: Response) | Withdrawn | Illegal

  function Moved(at: Stage, e: Event): Stage {
    match e
    case Pended(_) => if at == Unknown then Waiting else Illegal
    case Withdrew(_) => if at == Waiting then Withdrawn else at
    case Claimed(_, r, _) => if at == Waiting then Taken(r) else Illegal
    case Sent(_, r) => if at == Taken(r) then Answered(r) else Illegal
  }

  /** Where a proposal stands after what has happened; Illegal once anything happened to it out of order. */
  function StageOf(log: seq<Event>, id: Id): Stage {
    if log == [] then Unknown
    else
      var at, e := StageOf(log[..|log| - 1], id), log[|log| - 1];
      if e.id == id then Moved(at, e) else at
  }

  /** The table says where each proposal stands. */
  predicate Tells(s: State, id: Id) {
    var at := StageOf(s.log, id);
    && at != Illegal
    && (id in s.pending <==> at == Waiting)
    && (id in s.inFlight <==> at.Taken?) && (id in s.inFlight ==> at == Taken(s.inFlight[id]))
    && (id in s.channels <==> at != Unknown)
    && (id in s.channels && s.channels[id].Some? ==> at == Answered(s.channels[id].value))
    && (at != Unknown ==> 1 <= id.n <= s.nextID)
    && (id in s.decided <==> DecidedIn(s.log, id))
  }

  /** Someone decided it, or it was withdrawn. */
  predicate DecidedIn(log: seq<Event>, id: Id) {
    Withdrew(id) in log || exists k :: 0 <= k < |log| && log[k].Claimed? && log[k].id == id && !log[k].shutdown
  }

  ghost predicate Inv(s: State) {
    && (forall id :: Tells(s, id))
    && (forall a, b :: a in s.channels && b in s.channels && a.n == b.n ==> a == b)
  }

  lemma StageSnoc(log: seq<Event>, e: Event, id: Id)
    ensures StageOf(log + [e], id) == if e.id == id then Moved(StageOf(log, id), e) else StageOf(log, id)
  {
    assert (log + [e])[..|log|] == log;
  }

  lemma DecidedSnoc(log: seq<Event>, e: Event, id: Id)
    ensures DecidedIn(log + [e], id) <==>
        DecidedIn(log, id) || e == Withdrew(id) || (e.Claimed? && e.id == id && !e.shutdown)
  {
    var longer := log + [e];
    assert longer[|log|] == e;
    assert forall k :: 0 <= k < |log| ==> longer[k] == log[k];
    assert Withdrew(id) in longer <==> Withdrew(id) in log || e == Withdrew(id);
  }

  /** One event more: it moves its own proposal and no other. */
  lemma TellsEvent(log: seq<Event>, e: Event, id: Id)
    ensures StageOf(log + [e], id) == if e.id == id then Moved(StageOf(log, id), e) else StageOf(log, id)
    ensures DecidedIn(log + [e], id) <==>
        DecidedIn(log, id) || e == Withdrew(id) || (e.Claimed? && e.id == id && !e.shutdown)
  {
    StageSnoc(log, e, id);
    DecidedSnoc(log, e, id);
  }

  lemma TellsPend(s: State, a: Act, id: Id)
    requires Tells(s, id) && a.Pend? && Tells(s, Id(s.nextID + 1, a.nonce))
    ensures Tells(After(s, a), id)
  {
    hide StageOf, DecidedIn;
    TellsEvent(s.log, Pended(Id(s.nextID + 1, a.nonce)), id);
  }

  lemma TellsWithdraw(s: State, a: Act, id: Id)
    requires Tells(s, id) && a.Withdraw?
    ensures Tells(After(s, a), id)
  {
    hide StageOf, DecidedIn;
    TellsEvent(s.log, Withdrew(a.id), id);
  }

  lemma TellsDecide(s: State, a: Act, id: Id)
    requires Tells(s, id) && a.Decide?
    ensures Tells(After(s, a), id)
  {
    hide StageOf, DecidedIn;
    TellsEvent(s.log, Claimed(a.id, a.r, false), id);
  }

  lemma TellsDeliver(s: State, a: Act, id: Id)
    requires Tells(s, id) && Enabled(s, a) && a.Deliver?
    ensures Tells(After(s, a), id)
  {
    hide StageOf, DecidedIn;
    TellsEvent(s.log, Sent(a.id, s.inFlight[a.id]), id);
  }

  lemma TellsReject(s: State, a: Act, id: Id)
    requires Tells(s, id) && Enabled(s, a) && a.RejectOne?
    ensures Tells(After(s, a), id)
  {
    hide StageOf, DecidedIn;
    var claimed := Claimed(a.id, Rejection(a.reason), true);
    TellsEvent(s.log, claimed, id);
    TellsEvent(s.log + [claimed], Sent(a.id, Rejection(a.reason)), id);
  }

  lemma TellsReceive(s: State, a: Act, id: Id)
    requires Tells(s, id) && Enabled(s, a) && a.Receive?
    ensures Tells(After(s, a), id)
  {
    hide StageOf, DecidedIn;
  }

  lemma TellsAfter(s: State, a: Act, id: Id)
    requires Inv(s) && Enabled(s, a)
    ensures Tells(After(s, a), id)
  {
    assert Tells(s, id);
    hide Tells, After, Enabled;
    match a {
      case Pend(nonce, _) =>
        assert Tells(s, Id(s.nextID + 1, nonce));
        TellsPend(s, a, id);
      case Withdraw(_) => TellsWithdraw(s, a, id);
      case Decide(_, _, _) => TellsDecide(s, a, id);
      case Deliver(_) => TellsDeliver(s, a, id);
      case RejectOne(_, _) => TellsReject(s, a, id);
      case Receive(_) => TellsReceive(s, a, id);
    }
  }

  /** Every act keeps it. */
  lemma ActKeeps(s: State, a: Act)
    requires Inv(s) && Enabled(s, a)
    ensures Inv(After(s, a))
  {
    forall id ensures Tells(After(s, a), id) {
      TellsAfter(s, a, id);
    }
    hide StageOf, DecidedIn;
    forall id | id in s.channels ensures 1 <= id.n <= s.nextID {
      assert Tells(s, id);
    }
  }

  lemma {:induction false} RunKeeps(states: seq<State>, i: nat)
    requires IsRun(states) && i < |states|
    ensures Inv(states[i])
  {
    if i > 0 {
      RunKeeps(states, i - 1);
      hide Inv;
      assert Steps(states[i - 1], states[i]);
      var a :| Enabled(states[i - 1], a) && states[i] == After(states[i - 1], a);
      ActKeeps(states[i - 1], a);
    }
  }

  // ----- what every interleaving keeps -----

  /** No send ever blocks: the slot is free when a handler sends and when shutdown rejects. */
  lemma NoSendBlocks(states: seq<State>, i: nat, id: Id, reason: string)
    requires IsRun(states) && i < |states|
    ensures id in states[i].inFlight ==> Enabled(states[i], Deliver(id))
    ensures id in states[i].pending ==> Enabled(states[i], RejectOne(id, reason))
  {
    RunKeeps(states, i);
    assert Tells(states[i], id);
  }

  function Sends(log: seq<Event>, id: Id): nat {
    if log == [] then 0 else Sends(log[..|log| - 1], id) + if log[|log| - 1].Sent? && log[|log| - 1].id == id then 1
        else 0
  }

  function Claims(log: seq<Event>, id: Id): nat {
    if log == [] then 0 else Claims(log[..|log| - 1], id) + if log[|log| - 1].Claimed? && log[|log| - 1].id == id then 1
        else 0
  }

  lemma {:induction false} CountsOf(log: seq<Event>, id: Id)
    requires StageOf(log, id) != Illegal
    ensures Sends(log, id) == if StageOf(log, id).Answered? then 1 else 0
    ensures Claims(log, id) == if StageOf(log, id).Answered? || StageOf(log, id).Taken? then 1 else 0
  {
    if log != [] {
      CountsOf(log[..|log| - 1], id);
    }
  }

  /** Each proposal's channel gets at most one response, and it is the one that was claimed first: a proposal is
      claimed at most once, and answered only after that. */
  lemma AtMostOneResponse(states: seq<State>, i: nat, id: Id)
    requires IsRun(states) && i < |states|
    ensures Sends(states[i].log, id) <= Claims(states[i].log, id) <= 1
    ensures Sends(states[i].log, id) == 1 <==> StageOf(states[i].log, id).Answered?
    ensures Claims(states[i].log, id) == 1 && Sends(states[i].log, id) == 0 <==> id in states[i].inFlight
  {
    RunKeeps(states, i);
    assert Tells(states[i], id);
    CountsOf(states[i].log, id);
  }

  lemma {:induction false} SettledStays(log: seq<Event>, j: nat, id: Id)
    requires j <= |log| && StageOf(log, id) != Illegal
    ensures StageOf(log[..j], id) == Withdrawn ==>
        StageOf(log, id) == Withdrawn && Claims(log, id) == 0 && Sends(log, id) == 0
    ensures StageOf(log[..j], id).Answered? ==> StageOf(log, id) == StageOf(log[..j], id)
    decreases |log|
  {
    if j == |log| {
      assert log[..j] == log;
      CountsOf(log, id);
    } else {
      assert log[..|log| - 1][..j] == log[..j];
      SettledStays(log[..|log| - 1], j, id);
    }
  }

  /** A withdrawal that comes while the proposal waits, before any claim, comes first for good: nothing is ever sent
      or claimed after it. */
  lemma NothingAfterWithdrawal(states: seq<State>, i: nat, j: nat, id: Id)
    requires IsRun(states) && i < |states| && j < |states[i].log|
    requires states[i].log[j] == Withdrew(id) && StageOf(states[i].log[..j], id) == Waiting
    ensures Sends(states[i].log, id) == 0 && Claims(states[i].log, id) == 0 && id !in states[i].pending &&
        id !in states[i].inFlight
  {
    RunKeeps(states, i);
    assert Tells(states[i], id);
    StageSnoc(states[i].log[..j], Withdrew(id), id);
    assert states[i].log[..j + 1] == states[i].log[..j] + [Withdrew(id)];
    SettledStays(states[i].log, j + 1, id);
  }

  lemma {:induction false} PendsOnce(log: seq<Event>, i: nat, j: nat)
    requires i < j < |log| && log[i].Pended? && log[j] == log[i]
    ensures StageOf(log, log[i].id) == Illegal
    decreases |log|
  {
    var id := log[i].id;
    if j < |log| - 1 {
      PendsOnce(log[..|log| - 1], i, j);
    } else {
      KnownStays(log[..|log| - 1], i, id);
    }
  }

  lemma {:induction false} KnownStays(log: seq<Event>, i: nat, id: Id)
    requires i < |log| && log[i] == Pended(id)
    ensures StageOf(log, id) != Unknown
    decreases |log|
  {
    if i < |log| - 1 {
      KnownStays(log[..|log| - 1], i, id);
    }
  }

  /** No id is given twice, and no two have the same number. */
  lemma IdsAreNew(states: seq<State>, k: nat, i: nat, j: nat)
    requires IsRun(states) && k < |states| && i < j < |states[k].log| && states[k].log[i].Pended? &&
        states[k].log[j].Pended?
    ensures states[k].log[i].id.n != states[k].log[j].id.n
  {
    RunKeeps(states, k);
    var log := states[k].log;
    var a, b := log[i].id, log[j].id;
    assert Tells(states[k], a) && Tells(states[k], b);
    KnownStays(log, i, a);
    KnownStays(log, j, b);
    if a == b {
      PendsOnce(log, i, j);
    }
  }

  /** What a person is told. A decision that names another request's digest changes nothing; one is accepted exactly
      while the proposal waits; and after that it is too late or, where only shutdown rejected the proposal, not
      found. */
  lemma RepliesAreExact(states: seq<State>, i: nat, id: Id, digest: string, r: Response)
    requires IsRun(states) && i < |states|
    ensures var s, reply := states[i], ReplyTo(states[i], id, digest);
            && (reply != Accepted ==> After(s, Decide(id, digest, r)) == s)
            && (id in s.pending <==> StageOf(s.log, id) == Waiting)
            && (reply == Accepted <==> id in s.pending && (digest == "" || digest == s.pending[id]))
            && (reply == OtherRequest <==> id in s.pending && digest != "" && digest != s.pending[id])
            && (reply == AlreadyDecided <==> StageOf(s.log, id) != Waiting && DecidedIn(s.log, id))
            && (reply == NotFound <==> StageOf(s.log, id) != Waiting && !DecidedIn(s.log, id))
  {
    RunKeeps(states, i);
    assert Tells(states[i], id);
  }

  /** Not found where a person might expect too late: a proposal is pended, shutdown rejects it, and a decision
      comes. */
  lemma ShutdownIsNotFound(nonce: string) returns (states: seq<State>)
    ensures IsRun(states) && |states| == 3
    ensures var id := Id(1, nonce);
            && StageOf(states[2].log, id) == Answered(Rejection("stopped")) &&
                states[2].channels == map[id := Some(Rejection("stopped"))]
            && ReplyTo(states[2], id, "") == NotFound
  {
    var id, r := Id(1, nonce), Rejection("stopped");
    var s1 := After(START, Pend(nonce, "digest"));
    var s2 := After(s1, RejectOne(id, "stopped"));
    states := [START, s1, s2];
    assert Steps(START, s1) && Steps(s1, s2);
    StageSnoc([], Pended(id), id);
    StageSnoc([Pended(id)], Claimed(id, r, true), id);
    StageSnoc([Pended(id)] + [Claimed(id, r, true)], Sent(id, r), id);
    assert [] + [Pended(id)] == [Pended(id)];
  }
}
