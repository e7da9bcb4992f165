/** Overlapping calls when nothing goes wrong: no request is cancelled, requests can be parked, and
    every message fits every request.  Then every request that ends gets a message. */
module SmoothRuns {
  import opened Channel
  import opened Ledgers
  import opened ChannelLedgers
  import opened ChannelCancel
  import opened ChannelSafety

  /** No cancel, no shutdown, and a request that is to be parked finds memory. */
  predicate Smooth(s: State, a: Action) {
    match a
    case StartCancel(_, _) => false
    case Finalize => false
    case Advance(t, ok) => t in s.threads && s.threads[t].DispPush? ==> ok
    case _ => true
  }

  ghost predicate AllFit(d: Driver) {
    forall m, irp :: m in d.sent && irp in d.submitted ==> m.size <= irp.outputLength
  }

  /** Steps that a call takes while nothing goes wrong. */
  predicate OnCourse(d: Driver, pc: Pc) {
    match pc
    case SendExchange(_, irp) => irp in d.armed
    case _ =>
      || pc.DispPop? || pc.DispCopy? || pc.DispFree? || pc.DispPend? || pc.DispTest? || pc.DispPush? || pc.DispUnlock?
      || (IsSend(pc) && !pc.SendCancel?) || pc.Returned?
  }

  ghost predicate OnlySuccess(d: Driver) {
    && d.up && d.cancelFlag == {}
    && (forall c :: c in d.completions ==> c.status == Success)
    && (forall irp :: irp in d.irpList ==> irp in d.armed)
  }

  ghost predicate Goes(s: State) {
    OnlySuccess(s.d) && forall t :: t in s.threads ==> OnCourse(s.d, s.threads[t])
  }

  /** A call that holds a request and a message holds ones that fit, and parks an armed request. */
  ghost predicate HandsOn(s: State, t: nat)
    requires t in s.threads
  {
    var pc := s.threads[t];
    && (pc.DispCopy? || pc.SendCopy? ==> pc.msg.size <= pc.irp.outputLength)
    && (pc.DispPush? ==> pc.irp in s.d.armed)
  }

  lemma InHandFits(s: State, t: nat)
    requires Inv(s) && AllFit(s.d) && t in s.threads
    ensures HandsOn(s, t)
  {
    var pc := s.threads[t];
    if pc.DispCopy? || pc.SendCopy? {
      assert Holds(IrpLedger(s), t, pc.irp);
      assert Holds(MsgLedger(s), t, pc.msg);
    }
    if pc.DispPush? { assert Arming(s, t, pc.irp); }
  }

  lemma OthersGo(s: State, s': State, t: nat)
    requires Goes(s) && Moves(s, s', t) && OnlySuccess(s'.d) && OnCourse(s'.d, s'.threads[t])
    requires s.d.armed <= s'.d.armed
    ensures Goes(s')
  {
    forall u | u in s'.threads ensures OnCourse(s'.d, s'.threads[u]) {
      if u != t { assert OnCourse(s.d, s.threads[u]); }
    }
  }

  lemma DispatchSucceeds(s: State, t: nat, ok: bool)
    requires OnlySuccess(s.d) && t in s.threads && IsDispatch(s.threads[t]) && OnCourse(s.d, s.threads[t])
    requires var pc := s.threads[t]; pc.DispCopy? ==> pc.msg.size <= pc.irp.outputLength
    requires var pc := s.threads[t]; pc.DispPush? ==> ok && pc.irp in s.d.armed
    ensures var s' := DispatchStep(s, t, ok);
            OnlySuccess(s'.d) && OnCourse(s'.d, s'.threads[t]) && s.d.armed <= s'.d.armed
  {
  }

  lemma DispatchGoes(s: State, t: nat, ok: bool)
    requires Goes(s) && t in s.threads && IsDispatch(s.threads[t]) && HandsOn(s, t) && Smooth(s, Advance(t, ok))
    ensures Goes(DispatchStep(s, t, ok))
  {
    assert OnCourse(s.d, s.threads[t]);
    DispatchSucceeds(s, t, ok);
    OthersGo(s, DispatchStep(s, t, ok), t);
  }

  lemma SendSucceeds(s: State, t: nat, ok: bool)
    requires OnlySuccess(s.d) && t in s.threads && IsSend(s.threads[t]) && OnCourse(s.d, s.threads[t])
    requires var pc := s.threads[t]; pc.SendCopy? ==> pc.msg.size <= pc.irp.outputLength
    requires !s.threads[t].SendExchange?
    ensures var s' := SendStep(s, t, ok);
            OnlySuccess(s'.d) && OnCourse(s'.d, s'.threads[t]) && s.d.armed <= s'.d.armed
  {
    if s.d.irpList != [] { assert s.d.irpList[0] in s.d.irpList; }
    assert forall irp :: irp in SendStep(s, t, ok).d.irpList ==> irp in s.d.irpList;
  }

  /** The cancel routine is taken from one request, and no other. */
  lemma ExchangeGoes(s: State, t: nat, ok: bool)
    requires Linear(IrpLedger(s)) && Goes(s) && t in s.threads && s.threads[t].SendExchange?
    ensures Goes(SendStep(s, t, ok))
  {
    var s', irp := SendStep(s, t, ok), s.threads[t].irp;
    Exclusive(s, t, irp);
    assert OnCourse(s.d, s.threads[t]);
    forall u | u in s.threads && u != t ensures OnCourse(s'.d, s.threads[u]) {
      assert OnCourse(s.d, s.threads[u]);
      if s.threads[u].SendExchange? { assert s.threads[u].irp in IrpsOf(s.threads[u]); }
    }
  }

  lemma SendGoes(s: State, t: nat, ok: bool)
    requires Linear(IrpLedger(s)) && Goes(s) && t in s.threads && IsSend(s.threads[t]) && HandsOn(s, t)
    ensures Goes(SendStep(s, t, ok))
  {
    assert OnCourse(s.d, s.threads[t]);
    if s.threads[t].SendExchange? {
      ExchangeGoes(s, t, ok);
    } else {
      SendSucceeds(s, t, ok);
      OthersGo(s, SendStep(s, t, ok), t);
    }
  }

  lemma StepGoes(s: State, a: Action)
    requires Inv(s) && Goes(s) && AllFit(s.d) && Enabled(s, a) && Smooth(s, a)
    ensures Goes(Do(Exact, s, a))
  {
    if a.Advance? {
      InHandFits(s, a.t);
      assert OnCourse(s.d, s.threads[a.t]);
      if IsDispatch(s.threads[a.t]) {
        DispatchGoes(s, a.t, a.allocOk);
      } else {
        SendGoes(s, a.t, a.allocOk);
      }
    }
  }

  /** In every run of overlapping calls in which no request is cancelled, requests can be parked and
      the messages sent fit the requests submitted: every request that has ended got a message, and
      the others that are parked are armed. */
  lemma {:induction false} OnlySuccesses(states: seq<State>, actions: seq<Action>, n: nat)
    requires Run(Exact, states, actions) && n < |states|
    requires forall i :: 0 <= i < n ==> Smooth(states[i], actions[i]) && AllFit(states[i].d)
    ensures Goes(states[n])
  {
    if n > 0 {
      OnlySuccesses(states, actions, n - 1);
      ExactRunsAreSafe(states, actions, n - 1);
      StepGoes(states[n - 1], actions[n - 1]);
    }
  }

  /** The literal Pop(buffer) makes no difference to such runs. */
  lemma {:induction false} OnlySuccessesLiteral(states: seq<State>, actions: seq<Action>, n: nat)
    requires Run(Literal, states, actions) && n < |states|
    requires forall i :: 0 <= i < n ==> Smooth(states[i], actions[i]) && AllFit(states[i].d)
    ensures Goes(states[n]) && forall i :: 0 <= i < n ==> !PopMisses(states[i], actions[i])
  {
    if n > 0 {
      OnlySuccessesLiteral(states, actions, n - 1);
      LiteralPrefixIsSafe(states, actions, n - 1);
      var s, a := states[n - 1], actions[n - 1];
      assert a.Advance? ==> OnCourse(s.d, s.threads[a.t]);
      assert Do(Literal, s, a) == Do(Exact, s, a);
      StepGoes(s, a);
    }
  }
}
