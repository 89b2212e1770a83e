/** Delivery by policy: what an accepted delivery_authorized rests on, read from the chain's entries alone. */
module Authorization {
  import opened Wrappers
  import opened Events
  import R = Replay
  import opened ChainFacts

  /** The chain before the authorization justifies it: the phase_checked entry it names is the first with its hash and
      the last of all, passed on the tree it names, and comes after every offered review; its mode is policy, its terms
      are those of run_bound, and its policy is the last one on the chain, which was signed. */
  ghost predicate Justified(before: seq<Entry>, g: Grant) {
    exists c: nat :: RestsOn(before, g, c)
  }

  ghost predicate RestsOn(before: seq<Entry>, g: Grant, c: nat) {
    && LastOf(before, c, Checks)
    && c == R.FirstCheck(before, g.phaseChecked)
    && before[c].event.check == Check(g.tree, true)
    && !SeenFrom(before, c, Offers)
    && g.mode == MODE_POLICY
    && before[0].event.RunBound? && before[0].event.bound.terms == g.terms != ""
    && LastPolicy(before) < |before| && before[LastPolicy(before)].event.policy == Policy(g.policy, true)
  }

  /** An authorization is accepted exactly when it is the chain's first and the chain before it justifies it. */
  lemma AuthorizedIffJustified(before: seq<Entry>, g: Grant, hash: string, time: int)
    requires R.Accepts(before) && before != []
    ensures R.Accepts(before + [Entry(DeliveryAuthorized(g), hash, time)]) <==>
        !Seen(before, Grants) && Justified(before, g)
  {
    var e := Entry(DeliveryAuthorized(g), hash, time);
    var es := before + [e];
    var f := R.FoldOf(before);
    assert es[..|es| - 1] == before;
    assert R.Accepts(es) <==> f.authorized.None? && R.GrantRefusal(before, f.bound, f.policy, f.checks, g).None? by {
      hide R.GrantRefusal, R.LaunchEndRefusal, R.AcknowledgeRefusal, R.DecisionRefusal, R.VoteRefusal, R.LaunchRefusal,
          R.Next;
    }
    hide R.Run, R.Refusal;
    SealFacts(before);
    GrantRefusedIff(before, g);
  }

  lemma GrantRefusedIff(before: seq<Entry>, g: Grant)
    requires R.Accepts(before) && before != []
    ensures var f := R.FoldOf(before);
            R.GrantRefusal(before, f.bound, f.policy, f.checks, g).None? <==> Justified(before, g)
  {
    hide R.Run, R.Refusal, R.Next;
    var f := R.FoldOf(before);
    BoundFirst(before);
    CheckFacts(before);
    PolicyFacts(before);
    var c := R.FirstCheck(before, g.phaseChecked);
    if R.GrantRefusal(before, f.bound, f.policy, f.checks, g).None? {
      assert RestsOn(before, g, c);
    }
    if Justified(before, g) {
      assert Checks(before[c].event) && f.checks.index == c + 1;
    }
  }

  /** After the authorization at position k of the chain only its own events follow. */
  lemma {:induction false} OnlyDeliveryFollows(es: seq<Entry>, k: nat)
    requires R.Accepts(es) && k < |es| && es[k].event.DeliveryAuthorized?
    ensures forall j :: k < j < |es| ==> AllowedAfterAuthorization(es[j].event)
  {
    forall j | k < j < |es| ensures AllowedAfterAuthorization(es[j].event) {
      R.RunPrefix(es, j);
      hide R.Run, R.Next, R.LaunchEndRefusal, R.AcknowledgeRefusal, R.DecisionRefusal, R.VoteRefusal, R.LaunchRefusal,
           R.GrantRefusal;
      SealFacts(es[..j]);
      BoundFirst(es);
      assert Grants(es[..j][k].event);
    }
  }

  /** In every accepted chain that holds delivery_authorized, the whole chain as it is now still justifies it: the
      checks it names are the last that ran, they passed on its tree and no review was offered since them; its terms
      are the run's and its policy the last one loaded, signed; and only a delivery's own entries come after it, so no
      decision, request, vote, launch, resume, review or second authorization. */
  lemma AuthorizationStaysJustified(es: seq<Entry>, k: nat)
    requires R.Accepts(es) && k < |es| && es[k].event.DeliveryAuthorized?
    ensures Justified(es[..k], es[k].event.grant) && Justified(es, es[k].event.grant)
    ensures forall j :: k < j < |es| ==> AllowedAfterAuthorization(es[j].event)
    ensures forall j :: 0 <= j < |es| && es[j].event.DeliveryAuthorized? ==> j == k
    ensures R.FoldOf(es).authorized == Some(R.Authorization(es[k].event.grant, k + 1, es[k].hash))
  {
    JustifiedWhenWritten(es, k);
    OnlyDeliveryFollows(es, k);
    hide R.Run, R.Refusal, R.Next, Justified, LastPolicy;
    JustificationKept(es, es[k].event.grant, k, |es|);
    AuthorizationKept(es, k, |es|);
    assert es[..|es|] == es;
  }

  lemma JustifiedWhenWritten(es: seq<Entry>, k: nat)
    requires R.Accepts(es) && k < |es| && es[k].event.DeliveryAuthorized?
    ensures Justified(es[..k], es[k].event.grant)
    ensures forall j :: 0 <= j < k ==> !es[j].event.DeliveryAuthorized?
  {
    var g := es[k].event.grant;
    R.RunPrefix(es, k);
    BoundFirst(es);
    hide R.Run, R.Refusal, R.Next, Justified, LastPolicy;
    assert es[..k + 1] == es[..k] + [Entry(DeliveryAuthorized(g), es[k].hash, es[k].time)];
    AuthorizedIffJustified(es[..k], g, es[k].hash, es[k].time);
    forall j | 0 <= j < k ensures !es[j].event.DeliveryAuthorized? {
      assert !Grants(es[..k][j].event);
    }
  }

  lemma {:induction false} AuthorizationKept(es: seq<Entry>, k: nat, m: nat)
    requires R.Accepts(es) && k < m <= |es| && es[k].event.DeliveryAuthorized?
    requires forall j :: k < j < |es| ==> AllowedAfterAuthorization(es[j].event)
    ensures R.Accepts(es[..m]) && R.FoldOf(es[..m]).authorized ==
        Some(R.Authorization(es[k].event.grant, k + 1, es[k].hash))
    decreases m
  {
    R.RunPrefix(es, m - 1);
    hide R.Run, R.Refusal;
    if m > k + 1 {
      AuthorizationKept(es, k, m - 1);
    }
  }

  /** None of the events that may follow an authorization touches what justifies it. */
  lemma RestsOnKept(es: seq<Entry>, g: Grant, c: nat)
    requires es != [] && RestsOn(es[..|es| - 1], g, c)
    requires AllowedAfterAuthorization(es[|es| - 1].event) || Grants(es[|es| - 1].event)
    ensures RestsOn(es, g, c)
  {
    var before, e := es[..|es| - 1], es[|es| - 1].event;
    assert !Checks(e) && !Offers(e) && !SetsPolicy(e);
    LastGrows(es, c, Checks);
    SeenGrows(es, c, Offers);
    assert R.FirstCheck(es, g.phaseChecked) == c;
    assert LastPolicy(es) == LastPolicy(before);
  }

  lemma {:induction false} JustificationKept(es: seq<Entry>, g: Grant, k: nat, m: nat)
    requires k <= m <= |es| && Justified(es[..k], g)
    requires forall j :: k <= j < m ==> AllowedAfterAuthorization(es[j].event) || Grants(es[j].event)
    ensures Justified(es[..m], g)
    decreases m
  {
    hide LastPolicy, RestsOn;
    if m > k {
      JustificationKept(es, g, k, m - 1);
      var c: nat :| RestsOn(es[..m - 1], g, c);
      assert es[..m][..m - 1] == es[..m - 1] && es[..m][m - 1] == es[m - 1];
      RestsOnKept(es[..m], g, c);
    }
  }
}
