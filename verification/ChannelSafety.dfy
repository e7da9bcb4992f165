/** Safety of the channel over every fine-grained run: one owner for every request and message,
    no lost cancellation, and exactly when the literal Pop(buffer) breaks this. */
module ChannelSafety {
  import opened Common
  import opened Channel
  import opened Ledgers
  import opened ChannelLedgers
  import opened ChannelCancel
  import opened ChannelDelivery

  ghost predicate Inv(s: State) {
    && Linear(IrpLedger(s))
    && Linear(MsgLedger(s))
    && EvictsOther(s)
    && CancelInv(s)
    && DeliveryInv(s)
    && CancelsSubmitted(s)
  }

  function CancelTarget(pc: Pc): Option<Irp> {
    match pc
    case CancelStart(irp) => Some(irp)
    case CancelMark(irp) => Some(irp)
    case CancelExchange(irp) => Some(irp)
    case CancelRelease(irp) => Some(irp)
    case CancelPop(irp) => Some(irp)
    case _ => None
  }

  /** Only requests that were submitted are cancelled. */
  ghost predicate CancelsSubmitted(s: State) {
    forall t :: t in s.threads && CancelTarget(s.threads[t]).Some? ==>
      CancelTarget(s.threads[t]).value in s.d.submitted
  }

  lemma InvInitially()
    ensures Inv(INITIAL)
  {
    assert forall t, x :: !Holds(IrpLedger(INITIAL), t, x);
    assert forall t, x :: !Holds(MsgLedger(INITIAL), t, x);
  }

  lemma DispatchTargets(s: State, t: nat, ok: bool)
    requires t in s.threads && IsDispatch(s.threads[t])
    ensures var s' := DispatchStep(s, t, ok);
            Moves(s, s', t) && s'.d.submitted == s.d.submitted && CancelTarget(s'.threads[t]) == None
  {
  }

  lemma SendTargets(s: State, t: nat, ok: bool)
    requires t in s.threads && IsSend(s.threads[t])
    ensures var s' := SendStep(s, t, ok);
            Moves(s, s', t) && s'.d.submitted == s.d.submitted && CancelTarget(s'.threads[t]) == None
  {
  }

  lemma CancelTargets(mode: PopMode, s: State, t: nat)
    requires t in s.threads && !s.threads[t].Returned? && !IsDispatch(s.threads[t]) && !IsSend(s.threads[t])
    ensures var s' := CancelStep(mode, s, t);
            && Moves(s, s', t)
            && s'.d.submitted == s.d.submitted
            && (CancelTarget(s'.threads[t]) == None || CancelTarget(s'.threads[t]) == CancelTarget(s.threads[t]))
  {
  }

  lemma TargetStays(mode: PopMode, s: State, t: nat, ok: bool)
    requires Enabled(s, Advance(t, ok))
    ensures var s' := Do(mode, s, Advance(t, ok));
            && Moves(s, s', t)
            && s'.d.submitted == s.d.submitted
            && (CancelTarget(s'.threads[t]) == None || CancelTarget(s'.threads[t]) == CancelTarget(s.threads[t]))
  {
    if IsDispatch(s.threads[t]) {
      DispatchTargets(s, t, ok);
    } else if IsSend(s.threads[t]) {
      SendTargets(s, t, ok);
    } else {
      CancelTargets(mode, s, t);
    }
  }

  lemma StaysSubmitted(mode: PopMode, s: State, a: Action)
    requires CancelsSubmitted(s) && Enabled(s, a)
    ensures CancelsSubmitted(Do(mode, s, a))
  {
    match a
    case Advance(t, ok) => TargetStays(mode, s, t, ok);
    case Finalize => ShutdownEffect(s.d);
    case _ =>
  }

  /** Every step keeps the invariant, except a literal Pop(buffer) that misses. */
  lemma StepKeepsInv(mode: PopMode, s: State, a: Action)
    requires Inv(s) && Enabled(s, a)
    requires mode == Exact || !PopMisses(s, a)
    ensures Inv(Do(mode, s, a))
  {
    IrpsStayLinear(mode, s, a);
    MsgsStayLinear(mode, s, a);
    StaysEvictingOther(mode, s, a);
    CancelStays(mode, s, a);
    DeliveryStays(mode, s, a);
    StaysSubmitted(mode, s, a);
  }

  lemma LiteralMissState(s: State, a: Action)
    requires Enabled(s, a) && PopMisses(s, a)
    ensures var irp, s' := s.threads[a.t].irp, Do(Literal, s, a);
            && IrpLedger(s') == SetHeld(IrpLedger(s), a.t, {irp})
            && IrpLedger(s).held[a.t] == {}
            && s'.d.danglingNodes != {}
  {
    var s' := Do(Literal, s, a);
    assert s' == CancelStep(Literal, s, a.t);
    assert s.d.irpList[|s.d.irpList| - 1] in s'.d.danglingNodes;
  }

  lemma SecondHolder<T(!new)>(l: Ledger<T>, t: nat, x: T)
    requires Linear(l) && x in l.all && t in l.held && l.held[t] == {}
    ensures exists p :: p != InHand(t) && {p, InHand(t)} <= Places(SetHeld(l, t, {x}), x)
  {
    var l' := SetHeld(l, t, {x});
    LinearIsOnePlace(l, x);
    var p :| Places(l, x) == {p};
    assert p in Places(l, x) && p != InHand(t);
    assert p in Places(l', x);
    assert InHand(t) in Places(l', x);
    assert {p, InHand(t)} <= Places(l', x);
  }

  /** A literal Pop(buffer) that misses gives its request a second owner, the cancel that goes
      on to complete it. */
  lemma LiteralMissTwoOwners(s: State, a: Action)
    requires Inv(s) && Enabled(s, a) && PopMisses(s, a)
    ensures var s' := Do(Literal, s, a);
            exists p :: p != InHand(a.t) && {p, InHand(a.t)} <= Places(IrpLedger(s'), s.threads[a.t].irp)
  {
    assert CancelTarget(s.threads[a.t]) == Some(s.threads[a.t].irp);
    LiteralMissState(s, a);
    SecondHolder(IrpLedger(s), a.t, s.threads[a.t].irp);
  }

  lemma LiteralMissBreaks(s: State, a: Action)
    requires Inv(s) && Enabled(s, a) && PopMisses(s, a)
    ensures var s' := Do(Literal, s, a);
            && s'.d.danglingNodes != {}
            && !Linear(IrpLedger(s'))
            && !Inv(s')
  {
    var irp, s' := s.threads[a.t].irp, Do(Literal, s, a);
    LiteralMissState(s, a);
    LiteralMissTwoOwners(s, a);
    var p :| p != InHand(a.t) && {p, InHand(a.t)} <= Places(IrpLedger(s'), irp);
    assert p in Places(IrpLedger(s'), irp) && InHand(a.t) in Places(IrpLedger(s'), irp);
    if Linear(IrpLedger(s')) {
      LinearIsOnePlace(IrpLedger(s'), irp);
    }
  }

  /** Under the literal code a step keeps the invariant exactly when it is not such a miss. */
  lemma LiteralStepIff(s: State, a: Action)
    requires Inv(s) && Enabled(s, a)
    ensures Inv(Do(Literal, s, a)) <==> !PopMisses(s, a)
  {
    if PopMisses(s, a) {
      LiteralMissBreaks(s, a);
    } else {
      StepKeepsInv(Literal, s, a);
    }
  }

  // ---- whole runs

  lemma {:induction false} ExactRunsAreSafe(states: seq<State>, actions: seq<Action>, n: nat)
    requires Run(Exact, states, actions) && n < |states|
    ensures Inv(states[n])
  {
    if n == 0 {
      InvInitially();
    } else {
      ExactRunsAreSafe(states, actions, n - 1);
      StepKeepsInv(Exact, states[n - 1], actions[n - 1]);
    }
  }

  lemma {:induction false} LiteralPrefixIsSafe(states: seq<State>, actions: seq<Action>, n: nat)
    requires Run(Literal, states, actions) && n < |states|
    requires forall i :: 0 <= i < n ==> !PopMisses(states[i], actions[i])
    ensures Inv(states[n])
  {
    if n == 0 {
      InvInitially();
    } else {
      LiteralPrefixIsSafe(states, actions, n - 1);
      StepKeepsInv(Literal, states[n - 1], actions[n - 1]);
    }
  }

  /** A run of the literal code is safe throughout exactly when no Pop(buffer) in it misses a
      non-empty list. */
  lemma LiteralRunIff(states: seq<State>, actions: seq<Action>)
    requires Run(Literal, states, actions)
    ensures (forall n :: 0 <= n < |states| ==> Inv(states[n]))
            <==> (forall i :: 0 <= i < |actions| ==> !PopMisses(states[i], actions[i]))
  {
    if forall i :: 0 <= i < |actions| ==> !PopMisses(states[i], actions[i]) {
      forall n | 0 <= n < |states| ensures Inv(states[n]) {
        LiteralPrefixIsSafe(states, actions, n);
      }
    } else {
      var i :| 0 <= i < |actions| && PopMisses(states[i], actions[i]);
      if Inv(states[i]) {
        LiteralMissBreaks(states[i], actions[i]);
        assert !Inv(states[i + 1]);
      }
    }
  }

  // ---- what the invariant means

  /** Every submitted request is with one call, at one position of irp_list, or completed once. */
  lemma OneOwner(s: State, irp: Irp)
    requires Inv(s) && irp in s.d.submitted
    ensures exists p :: Places(IrpLedger(s), irp) == {p}
  {
    LinearIsOnePlace(IrpLedger(s), irp);
  }

  lemma CompletedOnce(s: State, i: nat, j: nat)
    requires Inv(s) && i < j < |s.d.completions|
    ensures s.d.completions[i].irp != s.d.completions[j].irp
  {
    assert CompletedIrps(s.d.completions)[i] != CompletedIrps(s.d.completions)[j];
  }

  /** A queued request without a cancel routine has exactly one cancel about to pop it, and one
      that is still armed but marked is in the hands of the cancel that marked it. */
  lemma CancelInFlight(s: State, irp: Irp)
    requires Inv(s) && irp in s.d.irpList
    ensures irp !in s.d.armed ==>
              exists t :: Claims(s, t, irp) && forall u :: Claims(s, u, irp) ==> u == t
    ensures irp in s.d.armed && irp in s.d.cancelFlag ==> exists t :: Marked(s, t, irp)
  {
    if irp !in s.d.armed {
      var t :| Claims(s, t, irp);
      assert forall u :: Claims(s, u, irp) ==> u == t;
    }
  }

  lemma QuiescentPlaces(s: State, irp: Irp)
    requires Linear(IrpLedger(s)) && Quiescent(s)
    ensures irp in s.d.submitted <==> irp in s.d.irpList || irp in CompletedIrps(s.d.completions)
    ensures irp in s.d.irpList ==> irp !in CompletedIrps(s.d.completions)
  {
    assert forall t :: !Holds(IrpLedger(s), t, irp);
  }

  lemma QuiescentProtocol(s: State, irp: Irp)
    requires ArmedInv(s) && NoLostCancel(s) && Quiescent(s)
    ensures irp in s.d.irpList ==> irp in s.d.armed && irp !in s.d.cancelFlag
    ensures irp in s.d.armed && s.d.up ==> irp in s.d.irpList
  {
    assert forall t :: !Claims(s, t, irp) && !Marked(s, t, irp);
    assert forall t :: !Arming(s, t, irp) && !Exchanging(s, t, irp);
  }

  /** With no call in flight, a request is either completed once or queued, armed and not
      cancelled; and the armed requests are the queued ones. */
  lemma QuiescentRequests(s: State, irp: Irp)
    requires Inv(s) && Quiescent(s)
    ensures irp in s.d.submitted <==> irp in s.d.irpList || irp in CompletedIrps(s.d.completions)
    ensures irp in s.d.irpList ==>
              && irp in s.d.armed
              && irp !in s.d.cancelFlag
              && irp !in CompletedIrps(s.d.completions)
    ensures irp in s.d.armed && s.d.up ==> irp in s.d.irpList
  {
    QuiescentPlaces(s, irp);
    QuiescentProtocol(s, irp);
  }

  /** Conservation of messages: what was sent is in hand, queued or released once. */
  lemma MessageConservation(s: State)
    requires Inv(s)
    ensures multiset(s.d.sent)
            == multiset(InHands(MsgLedger(s))) + multiset(s.d.dataList) + multiset(FreedMsgs(s.d.freed))
    ensures Quiescent(s) ==>
              multiset(s.d.sent) == multiset(s.d.dataList) + multiset(FreedMsgs(s.d.freed))
  {
    Conservation(MsgLedger(s));
    if Quiescent(s) {
      assert InHands(MsgLedger(s)) == {};
    }
  }

  lemma DeliverySucceeded(s: State, x: Delivery)
    requires SuccessInv(s) && x in s.d.deliveries
    ensures Completion(x.irp, Success) in s.d.completions
  {
    var i :| 0 <= i < |s.d.deliveries| && s.d.deliveries[i] == x;
    assert DeliveredIrps(s.d.deliveries)[i] == x.irp;
    assert x.irp in DeliveredIrps(s.d.deliveries) && x.irp in CompletedIrps(s.d.completions);
    var k :| 0 <= k < |CompletedIrps(s.d.completions)| && CompletedIrps(s.d.completions)[k] == x.irp;
    assert s.d.completions[k] in s.d.completions && s.d.completions[k].irp == x.irp;
  }

  lemma DeliveryReleased(s: State, msg: Msg)
    requires ReleaseInv(s) && Linear(MsgLedger(s)) && msg in DeliveredMsgs(s.d.deliveries)
    ensures Quiescent(s) ==> Freed(msg, Delivered) in s.d.freed
    ensures msg !in s.d.dataList
  {
    if Freed(msg, Delivered) in s.d.freed {
      FreedListed(s.d.freed, Freed(msg, Delivered));
    } else {
      var t :| Releasing(s, t, msg);
      HeldMsg(s, t, msg);
    }
  }

  /** A message is delivered at most once, into a request that it fits and that completed with
      success; delivered messages are the ones released as delivered, once no call is in flight. */
  lemma DeliveredOnce(s: State, i: nat)
    requires Inv(s) && i < |s.d.deliveries|
    ensures forall j :: 0 <= j < |s.d.deliveries| && j != i ==> s.d.deliveries[j].msg != s.d.deliveries[i].msg
    ensures s.d.deliveries[i].msg.size <= s.d.deliveries[i].irp.outputLength
    ensures Completion(s.d.deliveries[i].irp, Success) in s.d.completions
    ensures Quiescent(s) ==> Freed(s.d.deliveries[i].msg, Delivered) in s.d.freed
    ensures s.d.deliveries[i].msg !in s.d.dataList
  {
    var ds := s.d.deliveries;
    assert forall j :: 0 <= j < |ds| ==> DeliveredMsgs(ds)[j] == ds[j].msg;
    assert DeliveredMsgs(ds)[i] == ds[i].msg;
    DeliverySucceeded(s, ds[i]);
    DeliveryReleased(s, ds[i].msg);
  }

  lemma RefusalReturned(s: State, t: nat)
    requires OutcomeInv(s) && t in s.threads && s.threads[t].Returned? && s.threads[t].outcome.SendReturned?
    ensures Freed(s.threads[t].outcome.msg, Refused) in s.d.freed <==> !s.threads[t].outcome.accepted
  {
    var msg := s.threads[t].outcome.msg;
    assert ReturnsRecorded(s.d, s.threads[t]);
    if Freed(msg, Refused) in s.d.freed {
      var u :| u in s.threads && s.threads[u] == Returned(SendReturned(msg, false));
      assert Sends(s.threads[u]) == Sends(s.threads[t]);
    }
  }

  /** SendMessage returned false exactly for the messages its caller had to release. */
  lemma RefusedIffFalse(s: State, t: nat)
    requires Inv(s) && t in s.threads && s.threads[t].Returned? && s.threads[t].outcome.SendReturned?
    ensures Freed(s.threads[t].outcome.msg, Refused) in s.d.freed <==> !s.threads[t].outcome.accepted
  {
    RefusalReturned(s, t);
  }
}
