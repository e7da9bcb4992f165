/** What the status of a completed request says, in every run of overlapping calls. */
module ChannelStatus {
  import opened Channel
  import opened Ledgers
  import opened ChannelLedgers
  import opened ChannelCancel
  import opened ChannelSafety

  /** A request is completed as cancelled only if it was cancelled or the device is shut down, as too
      small only if a message was sent that does not fit it, as not ready only after a shutdown, and
      never as pending. */
  ghost predicate Means(d: Driver, c: Completion) {
    match c.status
    case Cancelled => c.irp in d.cancelFlag || !d.up
    case BufferTooSmall => exists m :: m in d.sent && c.irp.outputLength < m.size
    case DeviceNotReady => !d.up
    case Pending => false
    case _ => true
  }

  ghost predicate AllMean(d: Driver) {
    forall c :: c in d.completions ==> Means(d, c)
  }

  /** A call about to complete a request as cancelled, or that may come to, has a reason. */
  predicate HasReason(d: Driver, pc: Pc) {
    match pc
    case DispAbort(irp) => irp in d.cancelFlag
    case DispCancelled(irp) => irp in d.cancelFlag
    case SendExchange(_, irp) => irp in d.armed || irp in d.cancelFlag
    case SendCancel(_, irp) => irp in d.cancelFlag
    case CancelExchange(irp) => irp in d.cancelFlag
    case CancelRelease(irp) => irp in d.cancelFlag
    case CancelPop(irp) => irp in d.cancelFlag
    case CancelComplete(irp) => irp in d.cancelFlag
    case _ => true
  }

  ghost predicate Reasons(s: State) {
    AllMean(s.d) && forall t :: t in s.threads ==> HasReason(s.d, s.threads[t])
  }

  // ---- the shared state

  /** The driver state moves on: nothing is forgotten, and what is new has its meaning. */
  ghost predicate MovesOn(d: Driver, d': Driver) {
    && d.cancelFlag <= d'.cancelFlag && d.sent <= d'.sent && (d'.up ==> d.up)
    && forall c :: c in d'.completions ==> c in d.completions || Means(d', c)
  }

  lemma MeaningStays(d: Driver, d': Driver)
    requires AllMean(d) && MovesOn(d, d')
    ensures AllMean(d')
  {
    forall c | c in d'.completions ensures Means(d', c) {
      if c in d.completions {
        assert Means(d, c);
      }
    }
  }

  /** A message in hand that does not fit is one that was sent. */
  ghost predicate SentInHand(s: State, t: nat)
    requires t in s.threads
  {
    s.threads[t].DispCopy? || s.threads[t].SendCopy? ==> s.threads[t].msg in s.d.sent
  }

  lemma InHandWasSent(s: State, t: nat)
    requires Linear(MsgLedger(s)) && t in s.threads
    ensures SentInHand(s, t)
  {
    if s.threads[t].DispCopy? || s.threads[t].SendCopy? { assert Holds(MsgLedger(s), t, s.threads[t].msg); }
  }

  lemma DispatchMeans(s: State, t: nat, ok: bool)
    requires t in s.threads && IsDispatch(s.threads[t]) && HasReason(s.d, s.threads[t]) && SentInHand(s, t)
    ensures var s' := DispatchStep(s, t, ok); MovesOn(s.d, s'.d) && HasReason(s'.d, s'.threads[t])
  {
  }

  lemma SendMeans(s: State, t: nat, ok: bool)
    requires t in s.threads && IsSend(s.threads[t]) && HasReason(s.d, s.threads[t]) && SentInHand(s, t)
    requires s.threads[t].SendPop? && s.d.irpList != [] ==>
               s.d.irpList[0] in s.d.armed || s.d.irpList[0] in s.d.cancelFlag
    ensures var s' := SendStep(s, t, ok); MovesOn(s.d, s'.d) && HasReason(s'.d, s'.threads[t])
  {
  }

  lemma CancelMeans(mode: PopMode, s: State, t: nat)
    requires t in s.threads && !IsDispatch(s.threads[t]) && !IsSend(s.threads[t]) && !s.threads[t].Returned?
    requires HasReason(s.d, s.threads[t])
    ensures var s' := CancelStep(mode, s, t); MovesOn(s.d, s'.d) && HasReason(s'.d, s'.threads[t])
  {
  }

  // ---- the other threads

  /** Losing its cancel routine does not take a call's reason away. */
  ghost predicate OthersReason(s: State, s': State, t: nat) {
    forall u :: u in s.threads && u != t ==> HasReason(s'.d, s.threads[u])
  }

  lemma ReasonsStay(s: State, s': State, t: nat)
    requires Reasons(s) && Moves(s, s', t) && MovesOn(s.d, s'.d) && HasReason(s'.d, s'.threads[t])
    requires OthersReason(s, s', t)
    ensures Reasons(s')
  {
    MeaningStays(s.d, s'.d);
  }

  /** The cancel routine is taken from a request in hand, or from one that is marked. */
  lemma OthersKeepReason(s: State, s': State, t: nat, irp: Irp)
    requires Reasons(s) && s.d.cancelFlag <= s'.d.cancelFlag && s.d.armed - {irp} <= s'.d.armed
    requires irp in s'.d.cancelFlag || forall u :: u in s.threads && u != t ==> irp !in IrpsOf(s.threads[u])
    ensures OthersReason(s, s', t)
  {
    forall u | u in s.threads && u != t ensures HasReason(s'.d, s.threads[u]) {
      assert HasReason(s.d, s.threads[u]);
      if s.threads[u].SendExchange? { assert s.threads[u].irp in IrpsOf(s.threads[u]); }
    }
  }

  lemma OthersUntouched(s: State, s': State, t: nat)
    requires Reasons(s) && s.d.cancelFlag <= s'.d.cancelFlag && s.d.armed <= s'.d.armed
    ensures OthersReason(s, s', t)
  {
    forall u | u in s.threads && u != t ensures HasReason(s'.d, s.threads[u]) {
      assert HasReason(s.d, s.threads[u]);
    }
  }

  lemma DispatchArms(s: State, t: nat, ok: bool)
    requires t in s.threads && IsDispatch(s.threads[t])
    ensures var (s', pc) := (DispatchStep(s, t, ok), s.threads[t]);
            && Moves(s, s', t) && s'.d.cancelFlag == s.d.cancelFlag
            && (if pc.DispDisarm? then s'.d.armed == s.d.armed - {pc.irp} else s.d.armed <= s'.d.armed)
  {
  }

  lemma SendArms(s: State, t: nat, ok: bool)
    requires t in s.threads && IsSend(s.threads[t])
    ensures var (s', pc) := (SendStep(s, t, ok), s.threads[t]);
            && Moves(s, s', t) && s'.d.cancelFlag == s.d.cancelFlag
            && s'.d.armed == if pc.SendExchange? then s.d.armed - {pc.irp} else s.d.armed
  {
  }

  lemma CancelArms(mode: PopMode, s: State, t: nat)
    requires t in s.threads && !IsDispatch(s.threads[t]) && !IsSend(s.threads[t]) && !s.threads[t].Returned?
    ensures var (s', pc) := (CancelStep(mode, s, t), s.threads[t]);
            && Moves(s, s', t) && s.d.cancelFlag <= s'.d.cancelFlag
            && s'.d.armed == if pc.CancelExchange? then s.d.armed - {pc.irp} else s.d.armed
  {
  }

  // ---- every step

  lemma DispatchReasons(s: State, t: nat, ok: bool)
    requires Reasons(s) && Linear(IrpLedger(s))
    requires t in s.threads && IsDispatch(s.threads[t]) && SentInHand(s, t)
    ensures Reasons(DispatchStep(s, t, ok))
  {
    var s', pc := DispatchStep(s, t, ok), s.threads[t];
    assert HasReason(s.d, pc);
    DispatchMeans(s, t, ok);
    DispatchArms(s, t, ok);
    if pc.DispDisarm? {
      Exclusive(s, t, pc.irp);
      OthersKeepReason(s, s', t, pc.irp);
    } else {
      OthersUntouched(s, s', t);
    }
    ReasonsStay(s, s', t);
  }

  lemma SendReasons(s: State, t: nat, ok: bool)
    requires Reasons(s) && Linear(IrpLedger(s))
    requires t in s.threads && IsSend(s.threads[t]) && SentInHand(s, t)
    requires s.threads[t].SendPop? && s.d.irpList != [] ==>
               s.d.irpList[0] in s.d.armed || s.d.irpList[0] in s.d.cancelFlag
    ensures Reasons(SendStep(s, t, ok))
  {
    var s', pc := SendStep(s, t, ok), s.threads[t];
    assert HasReason(s.d, pc);
    SendMeans(s, t, ok);
    SendArms(s, t, ok);
    if pc.SendExchange? {
      Exclusive(s, t, pc.irp);
      OthersKeepReason(s, s', t, pc.irp);
    } else {
      OthersUntouched(s, s', t);
    }
    ReasonsStay(s, s', t);
  }

  lemma CancelReasons(mode: PopMode, s: State, t: nat)
    requires Reasons(s) && t in s.threads
    requires !IsDispatch(s.threads[t]) && !IsSend(s.threads[t]) && !s.threads[t].Returned?
    ensures Reasons(CancelStep(mode, s, t))
  {
    var s', pc := CancelStep(mode, s, t), s.threads[t];
    assert HasReason(s.d, pc);
    CancelMeans(mode, s, t);
    CancelArms(mode, s, t);
    if pc.CancelExchange? {
      OthersKeepReason(s, s', t, pc.irp);
    } else {
      OthersUntouched(s, s', t);
    }
    ReasonsStay(s, s', t);
  }

  /** A parked request has its cancel routine, or a cancel has taken it away. */
  lemma FirstHasReason(s: State)
    requires ClaimInv(s) && NoLostCancel(s) && s.d.irpList != []
    ensures s.d.irpList[0] in s.d.armed || s.d.irpList[0] in s.d.cancelFlag
  {
    var irp := s.d.irpList[0];
    assert irp in s.d.irpList;
    if irp !in s.d.armed {
      var t :| Claims(s, t, irp);
    }
  }

  lemma FinalizeReasons(s: State)
    requires Reasons(s) && Quiescent(s)
    ensures Reasons(s.(d := Shutdown(s.d)))
  {
    var d' := Shutdown(s.d);
    ShutdownEffect(s.d);
    forall c | c in d'.completions ensures c in s.d.completions || Means(d', c) {
      var i :| 0 <= i < |d'.completions| && d'.completions[i] == c;
      if i < |s.d.completions| { assert s.d.completions[i] == c; }
    }
    MeaningStays(s.d, d');
  }

  lemma AdvanceReasons(mode: PopMode, s: State, t: nat, ok: bool)
    requires Inv(s) && Reasons(s) && Enabled(s, Advance(t, ok))
    ensures Reasons(Do(mode, s, Advance(t, ok)))
  {
    InHandWasSent(s, t);
    if IsDispatch(s.threads[t]) {
      DispatchReasons(s, t, ok);
    } else if IsSend(s.threads[t]) {
      if s.d.irpList != [] { FirstHasReason(s); }
      SendReasons(s, t, ok);
    } else {
      CancelReasons(mode, s, t);
    }
  }

  lemma StartReasons(s: State, s': State, t: nat)
    requires Reasons(s) && t !in s.threads && Moves(s, s', t)
    requires s'.d == s.d.(submitted := s'.d.submitted, sent := s'.d.sent) && s.d.sent <= s'.d.sent
    requires s'.threads[t].DispPop? || s'.threads[t].SendPop? || s'.threads[t].CancelStart?
    ensures Reasons(s')
  {
    MeaningStays(s.d, s'.d);
    OthersUntouched(s, s', t);
  }

  lemma StepReasons(mode: PopMode, s: State, a: Action)
    requires Inv(s) && Reasons(s) && Enabled(s, a)
    ensures Reasons(Do(mode, s, a))
  {
    match a
    case StartDispatch(t, _) => StartReasons(s, Do(mode, s, a), t);
    case StartSend(t, _) => StartReasons(s, Do(mode, s, a), t);
    case StartCancel(t, _) => StartReasons(s, Do(mode, s, a), t);
    case Advance(t, ok) => AdvanceReasons(mode, s, t, ok);
    case Finalize => FinalizeReasons(s);
  }

  /** In every interleaving the status of every completed request means what it says. */
  lemma {:induction false} StatusMeans(states: seq<State>, actions: seq<Action>, n: nat)
    requires Run(Exact, states, actions) && n < |states|
    ensures Reasons(states[n]) && forall c :: c in states[n].d.completions ==> Means(states[n].d, c)
  {
    if n > 0 {
      StatusMeans(states, actions, n - 1);
      ExactRunsAreSafe(states, actions, n - 1);
      StepReasons(Exact, states[n - 1], actions[n - 1]);
    }
  }
}
