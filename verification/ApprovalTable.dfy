/** The server's methods: each critical section, and each send, is one act of the protocol. */
module ApprovalTable {
  import opened Wrappers
  import opened ApprovalServer

  class Server {
    var pending: map<Id, string>
    var decided: set<Id>
    var nextID: nat
    var channels: map<Id, Option<Response>>
    var inFlight: map<Id, Response>
    ghost var log: seq<Event>
    ghost var states: seq<State>

    ghost function Now(): State
      reads this
    {
      State(pending, decided, nextID, channels, inFlight, log)
    }

    ghost predicate Valid()
      reads this
    {
      IsRun(states) && states[|states| - 1] == Now()
    }

    constructor ()
      ensures Valid() && Now() == START
    {
      pending, decided, nextID, channels, inFlight := map[], {}, 0, map[], map[];
      log, states := [], [START];
    }

    /** One act was done. */
    ghost method Did(a: Act)
      requires IsRun(states) && Enabled(states[|states| - 1], a) && Now() == After(states[|states| - 1], a)
      modifies this`states
      ensures Valid() && old(states) <= states
    {
      hide After, Enabled;
      assert Steps(states[|states| - 1], Now());
      states := states + [Now()];
    }

    /** Registers a request; its channel gets one response. The nonce is text nobody can guess. */
    method PendSigned(challenge: string, nonce: string) returns (id: Id)
      requires Valid()
      modifies this
      ensures Valid() && old(states) <= states && Now() == After(old(Now()), Pend(nonce, challenge))
      ensures id !in old(channels) && id in pending && pending[id] == challenge
    {
      RunKeeps(states, |states| - 1);
      hide IsRun;
      nextID := nextID + 1;
      id := Id(nextID, nonce);
      assert Tells(states[|states| - 1], id);
      pending, channels := pending[id := challenge], channels[id := None];
      log := log + [Pended(id)];
      Did(Pend(nonce, challenge));
    }

    /** Takes a proposal back; a later decision for it comes too late. */
    method Withdraw(id: Id)
      requires Valid()
      modifies this
      ensures Valid() && old(states) <= states && Now() == After(old(Now()), Act.Withdraw(id))
    {
      hide IsRun;
      pending, decided := pending - {id}, decided + {id};
      log := log + [Withdrew(id)];
      Did(Act.Withdraw(id));
    }

    /** The critical section of a decision: claims the proposal if it waits and the decision is for the same request. */
    method Claim(id: Id, digest: string, r: Response) returns (reply: Reply)
      requires Valid()
      modifies this
      ensures Valid() && old(states) <= states && Now() == After(old(Now()), Decide(id, digest, r))
      ensures reply == ReplyTo(old(Now()), id, digest)
    {
      hide IsRun;
      if id in pending && digest != "" && digest != pending[id] {
        reply := OtherRequest;
      } else if id in pending {
        pending, decided, inFlight := pending - {id}, decided + {id}, inFlight[id := r];
        log := log + [Claimed(id, r, false)];
        reply := Accepted;
      } else {
        reply := if id in decided then AlreadyDecided else NotFound;
      }
      Did(Decide(id, digest, r));
    }

    /** The send of the claimed decision, after the mutex is released. It never blocks. */
    method Send(id: Id)
      requires Valid() && id in inFlight
      modifies this
      ensures Valid() && old(states) <= states
      ensures channels == old(channels)[id := Some(old(inFlight)[id])] && id !in inFlight
    {
      NoSendBlocks(states, |states| - 1, id, "");
      hide IsRun;
      channels, log := channels[id := Some(inFlight[id])], log + [Sent(id, inFlight[id])];
      inFlight := inFlight - {id};
      Did(Deliver(id));
    }

    /** Shutdown, under the mutex: every waiting proposal gets its rejection. None of the sends blocks. */
    method RejectAll(reason: string)
      requires Valid()
      modifies this
      ensures Valid() && old(states) <= states && pending == map[]
      ensures decided == old(decided) && inFlight == old(inFlight) && nextID == old(nextID) &&
          channels.Keys == old(channels).Keys
      ensures forall id :: id in channels ==>
                channels[id] == if id in old(pending) then Some(Rejection(reason)) else old(channels)[id]
    {
      hide IsRun;
      assert pending.Keys <= channels.Keys by { PendingHaveChannels(states); }
      while pending.Keys != {}
        invariant Valid() && old(states) <= states && pending.Keys <= old(pending).Keys
        invariant decided == old(decided) && inFlight == old(inFlight) && nextID == old(nextID) &&
            channels.Keys == old(channels).Keys
        invariant forall id :: id in channels ==>
                    channels[id] == if id in old(pending) && id !in pending
                                    then Some(Rejection(reason))
                                    else old(channels)[id]
        decreases pending.Keys
      {
        var id :| id in pending;
        RejectPending(id, reason);
      }
    }

    method RejectPending(id: Id, reason: string)
      requires Valid() && id in pending
      modifies this
      ensures Valid() && old(states) <= states
      ensures Enabled(old(Now()), RejectOne(id, reason)) && Now() == After(old(Now()), RejectOne(id, reason))
    {
      NoSendBlocks(states, |states| - 1, id, reason);
      hide IsRun;
      var r := Rejection(reason);
      channels, log := channels[id := Some(r)], log + [Claimed(id, r, true)] + [Sent(id, r)];
      pending := pending - {id};
      Did(RejectOne(id, reason));
    }
  }

  lemma PendingHaveChannels(states: seq<State>)
    requires IsRun(states)
    ensures states[|states| - 1].pending.Keys <= states[|states| - 1].channels.Keys
  {
    RunKeeps(states, |states| - 1);
    var s := states[|states| - 1];
    forall id | id in s.pending ensures id in s.channels {
      assert Tells(s, id);
    }
  }
}
