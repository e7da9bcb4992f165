/** What the logs of the channel say together: every delivery is one message copied into one
    request it fits, and what a call returned is what was recorded for it. */
module ChannelDelivery {
  import opened Common
  import opened Channel
  import opened Ledgers
  import opened ChannelLedgers

  function DeliveredMsgs(ds: seq<Delivery>): seq<Msg> {
    seq(|ds|, i requires 0 <= i < |ds| => ds[i].msg)
  }

  function DeliveredIrps(ds: seq<Delivery>): seq<Irp> {
    seq(|ds|, i requires 0 <= i < |ds| => ds[i].irp)
  }

  lemma DeliveredSnoc(ds: seq<Delivery>, x: Delivery)
    ensures DeliveredMsgs(ds + [x]) == DeliveredMsgs(ds) + [x.msg]
    ensures DeliveredIrps(ds + [x]) == DeliveredIrps(ds) + [x.irp]
  {
  }

  /** A call that has copied m out and has still to release it. */
  ghost predicate Releasing(s: State, t: nat, m: Msg) {
    t in s.threads && (s.threads[t].DispFree? || s.threads[t].SendFree?) && s.threads[t].msg == m
  }

  /** Delivered messages are the ones released as delivered or about to be. */
  ghost predicate ReleaseInv(s: State) {
    && NoDup(DeliveredMsgs(s.d.deliveries))
    && (forall m :: m in DeliveredMsgs(s.d.deliveries) ==>
          Freed(m, Delivered) in s.d.freed || exists t :: Releasing(s, t, m))
    && (forall t, m :: Releasing(s, t, m) ==> m in DeliveredMsgs(s.d.deliveries))
    && (forall f :: f in s.d.freed ==> (f.fate == Delivered <==> f.msg in DeliveredMsgs(s.d.deliveries)))
  }

  /** Requests completed with success are the ones that got a message, and it fits. */
  ghost predicate SuccessInv(s: State) {
    && (forall c :: c in s.d.completions ==> (c.status == Success <==> c.irp in DeliveredIrps(s.d.deliveries)))
    && (forall irp :: irp in DeliveredIrps(s.d.deliveries) ==> irp in CompletedIrps(s.d.completions))
    && (forall x :: x in s.d.deliveries ==> x.msg.size <= x.irp.outputLength)
  }

  predicate ReturnsRecorded(d: Driver, pc: Pc) {
    match pc
    case DispFree(irp, _) => Completion(irp, Success) in d.completions
    case DispRepush(irp, _) => Completion(irp, BufferTooSmall) in d.completions
    case DispDrop(irp, _) => Completion(irp, BufferTooSmall) in d.completions
    case Returned(Dispatched(irp, status)) => status == Pending || Completion(irp, status) in d.completions
    case Returned(SendReturned(msg, accepted)) => accepted || Freed(msg, Refused) in d.freed
    case _ => true
  }

  /** The message a SendMessage call was given. */
  function Sends(pc: Pc): Option<Msg> {
    if IsSend(pc) then Some(pc.msg)
    else if pc.Returned? && pc.outcome.SendReturned? then Some(pc.outcome.msg)
    else None
  }

  /** A dispatcher returns the status recorded at completion, unless it returns pending; a
      message is refused exactly when its SendMessage returned false. */
  ghost predicate OutcomeInv(s: State) {
    && (forall t :: t in s.threads ==> ReturnsRecorded(s.d, s.threads[t]))
    && (forall t :: t in s.threads && Sends(s.threads[t]).Some? ==> Sends(s.threads[t]).value in s.d.sent)
    && (forall t, u |
          && t in s.threads && u in s.threads
          && Sends(s.threads[t]).Some? && Sends(s.threads[t]) == Sends(s.threads[u]) :: t == u)
    && (forall f :: f in s.d.freed && f.fate == Refused ==>
          exists t :: t in s.threads && s.threads[t] == Returned(SendReturned(f.msg, false)))
  }

  ghost predicate DeliveryInv(s: State) {
    ReleaseInv(s) && SuccessInv(s) && OutcomeInv(s)
  }

  lemma FreedListed(fs: seq<Freed>, f: Freed)
    requires f in fs
    ensures f.msg in FreedMsgs(fs)
  {
    var i :| 0 <= i < |fs| && fs[i] == f;
    assert FreedMsgs(fs)[i] == f.msg;
  }

  lemma CompletionListed(cs: seq<Completion>, c: Completion)
    requires c in cs
    ensures c.irp in CompletedIrps(cs)
  {
    var i :| 0 <= i < |cs| && cs[i] == c;
    assert CompletedIrps(cs)[i] == c.irp;
  }

  /** What holding a message rules out. */
  lemma HeldMsg(s: State, t: nat, m: Msg)
    requires Linear(MsgLedger(s)) && t in s.threads && m in MsgsOf(s.threads[t])
    ensures m !in FreedMsgs(s.d.freed) && m !in s.d.dataList
    ensures forall fate :: Freed(m, fate) !in s.d.freed
    ensures forall u :: u in s.threads && m in MsgsOf(s.threads[u]) ==> u == t
  {
    assert Holds(MsgLedger(s), t, m);
    forall fate ensures Freed(m, fate) !in s.d.freed {
      if Freed(m, fate) in s.d.freed { FreedListed(s.d.freed, Freed(m, fate)); }
    }
    forall u | u in s.threads && m in MsgsOf(s.threads[u]) ensures u == t {
      assert Holds(MsgLedger(s), u, m);
    }
  }

  lemma HeldIrp(s: State, t: nat, irp: Irp)
    requires Linear(IrpLedger(s)) && t in s.threads && irp in IrpsOf(s.threads[t])
    ensures irp !in CompletedIrps(s.d.completions)
    ensures forall st :: Completion(irp, st) !in s.d.completions
  {
    assert Holds(IrpLedger(s), t, irp);
    forall st ensures Completion(irp, st) !in s.d.completions {
      if Completion(irp, st) in s.d.completions { CompletionListed(s.d.completions, Completion(irp, st)); }
    }
  }

  // ---- releases

  lemma ReleaseQuiet(s: State, s': State, t: nat)
    requires ReleaseInv(s) && Moves(s, s', t)
    requires s'.d.deliveries == s.d.deliveries && s'.d.freed == s.d.freed
    requires forall m :: Releasing(s', t, m) <==> Releasing(s, t, m)
    ensures ReleaseInv(s')
  {
    assert forall u, m :: Releasing(s', u, m) <==> Releasing(s, u, m);
  }

  /** A message is copied out by the thread that has it in hand. */
  lemma ReleaseCopy(s: State, s': State, t: nat, irp: Irp, msg: Msg)
    requires ReleaseInv(s) && Linear(MsgLedger(s)) && Moves(s, s', t)
    requires t in s.threads && msg in MsgsOf(s.threads[t])
    requires forall m :: !Releasing(s, t, m)
    requires forall m :: Releasing(s', t, m) <==> m == msg
    requires s'.d.deliveries == s.d.deliveries + [Delivery(irp, msg)] && s'.d.freed == s.d.freed
    ensures ReleaseInv(s')
  {
    HeldMsg(s, t, msg);
    DeliveredSnoc(s.d.deliveries, Delivery(irp, msg));
    assert forall u, m :: u != t ==> (Releasing(s', u, m) <==> Releasing(s, u, m));
    assert Releasing(s', t, msg);
    assert forall u :: Releasing(s, u, msg) ==> msg in MsgsOf(s.threads[u]);
    assert msg !in DeliveredMsgs(s.d.deliveries);
  }

  lemma ReleaseFree(s: State, s': State, t: nat, f: Freed)
    requires ReleaseInv(s) && Linear(MsgLedger(s)) && Moves(s, s', t)
    requires t in s.threads && f.msg in MsgsOf(s.threads[t])
    requires forall m :: Releasing(s, t, m) ==> m == f.msg
    requires Releasing(s, t, f.msg) <==> f.fate == Delivered
    requires forall m :: !Releasing(s', t, m)
    requires s'.d.deliveries == s.d.deliveries && s'.d.freed == s.d.freed + [f]
    ensures ReleaseInv(s')
  {
    HeldMsg(s, t, f.msg);
    assert forall u, m :: u != t ==> (Releasing(s', u, m) <==> Releasing(s, u, m));
    assert forall u, m :: Releasing(s, u, m) ==> m in MsgsOf(s.threads[u]);
    assert f in s'.d.freed;
    assert forall g :: g in s.d.freed ==> g in s'.d.freed;
  }

  lemma ReleaseDispatch(s: State, t: nat, ok: bool)
    requires ReleaseInv(s) && Linear(MsgLedger(s)) && t in s.threads && IsDispatch(s.threads[t])
    ensures ReleaseInv(DispatchStep(s, t, ok))
  {
    var s', pc := DispatchStep(s, t, ok), s.threads[t];
    if pc.DispCopy? && pc.msg.size <= pc.irp.outputLength {
      ReleaseCopy(s, s', t, pc.irp, pc.msg);
    } else if pc.DispFree? {
      assert Releasing(s, t, pc.msg);
      ReleaseFree(s, s', t, Freed(pc.msg, Delivered));
    } else if pc.DispDrop? {
      ReleaseFree(s, s', t, Freed(pc.msg, Dropped));
    } else {
      ReleaseQuiet(s, s', t);
    }
  }

  lemma ReleaseSend(s: State, t: nat, ok: bool)
    requires ReleaseInv(s) && Linear(MsgLedger(s)) && t in s.threads && IsSend(s.threads[t])
    ensures ReleaseInv(SendStep(s, t, ok))
  {
    var s', pc := SendStep(s, t, ok), s.threads[t];
    if pc.SendCopy? && pc.msg.size <= pc.irp.outputLength {
      ReleaseCopy(s, s', t, pc.irp, pc.msg);
    } else if |s'.d.freed| > |s.d.freed| {
      ReleaseFree(s, s', t, s'.d.freed[|s.d.freed|]);
    } else {
      ReleaseQuiet(s, s', t);
    }
  }

  lemma ReleaseFinalize(s: State)
    requires ReleaseInv(s) && Linear(MsgLedger(s)) && Quiescent(s)
    ensures ReleaseInv(s.(d := Shutdown(s.d)))
  {
    ShutdownEffect(s.d);
    var s' := s.(d := Shutdown(s.d));
    assert forall u, m :: !Releasing(s, u, m) && !Releasing(s', u, m);
    forall f | f in s'.d.freed
      ensures f.fate == Delivered <==> f.msg in DeliveredMsgs(s'.d.deliveries)
    {
      var i :| 0 <= i < |s'.d.freed| && s'.d.freed[i] == f;
      if i >= |s.d.freed| {
        assert FreedMsgs(s'.d.freed)[i] == f.msg == s.d.dataList[i - |s.d.freed|];
        assert f.msg in MsgLedger(s).queue;
        if f.msg in DeliveredMsgs(s.d.deliveries) {
          FreedListed(s.d.freed, Freed(f.msg, Delivered));
        }
      } else {
        assert f in s.d.freed;
      }
    }
    assert forall g :: g in s.d.freed ==> g in s'.d.freed;
  }

  // ---- completions

  lemma SuccessComplete(d: Driver, d': Driver, c: Completion)
    requires forall x :: x in d.completions ==> (x.status == Success <==> x.irp in DeliveredIrps(d.deliveries))
    requires forall irp :: irp in DeliveredIrps(d.deliveries) ==> irp in CompletedIrps(d.completions)
    requires c.irp !in CompletedIrps(d.completions) && d'.completions == d.completions + [c]
    requires if c.status == Success
             then exists msg :: d'.deliveries == d.deliveries + [Delivery(c.irp, msg)]
             else d'.deliveries == d.deliveries
    ensures forall x :: x in d'.completions ==> (x.status == Success <==> x.irp in DeliveredIrps(d'.deliveries))
    ensures forall irp :: irp in DeliveredIrps(d'.deliveries) ==> irp in CompletedIrps(d'.completions)
  {
    CompletedIrpsSnoc(d.completions, c);
    if c.status == Success {
      var msg :| d'.deliveries == d.deliveries + [Delivery(c.irp, msg)];
      DeliveredSnoc(d.deliveries, Delivery(c.irp, msg));
    }
    forall x | x in d'.completions
      ensures x.status == Success <==> x.irp in DeliveredIrps(d'.deliveries)
    {
      if x in d.completions {
        var i :| 0 <= i < |d.completions| && d.completions[i] == x;
        assert CompletedIrps(d.completions)[i] == x.irp;
      }
    }
  }

  lemma SuccessDispatch(s: State, t: nat, ok: bool)
    requires SuccessInv(s) && Linear(IrpLedger(s)) && t in s.threads && IsDispatch(s.threads[t])
    ensures SuccessInv(DispatchStep(s, t, ok))
  {
    var d, d' := s.d, DispatchStep(s, t, ok).d;
    if |d'.completions| > |d.completions| {
      HeldIrp(s, t, s.threads[t].irp);
      if s.threads[t].DispCopy? && s.threads[t].msg.size <= s.threads[t].irp.outputLength {
        assert d'.deliveries == d.deliveries + [Delivery(s.threads[t].irp, s.threads[t].msg)];
      }
      SuccessComplete(d, d', d'.completions[|d.completions|]);
    }
  }

  lemma SuccessSend(s: State, t: nat, ok: bool)
    requires SuccessInv(s) && Linear(IrpLedger(s)) && t in s.threads && IsSend(s.threads[t])
    ensures SuccessInv(SendStep(s, t, ok))
  {
    var d, d' := s.d, SendStep(s, t, ok).d;
    if |d'.completions| > |d.completions| {
      HeldIrp(s, t, s.threads[t].irp);
      if s.threads[t].SendCopy? && s.threads[t].msg.size <= s.threads[t].irp.outputLength {
        assert d'.deliveries == d.deliveries + [Delivery(s.threads[t].irp, s.threads[t].msg)];
      }
      SuccessComplete(d, d', d'.completions[|d.completions|]);
    }
  }

  lemma SuccessCancel(mode: PopMode, s: State, t: nat)
    requires SuccessInv(s) && Linear(IrpLedger(s)) && t in s.threads
    ensures SuccessInv(CancelStep(mode, s, t))
  {
    var d, d' := s.d, CancelStep(mode, s, t).d;
    if s.threads[t].CancelComplete? {
      HeldIrp(s, t, s.threads[t].irp);
      SuccessComplete(d, d', d'.completions[|d.completions|]);
    }
  }

  lemma SuccessFinalize(s: State)
    requires SuccessInv(s) && Linear(IrpLedger(s))
    ensures SuccessInv(s.(d := Shutdown(s.d)))
  {
    ShutdownEffect(s.d);
    var d' := Shutdown(s.d);
    forall x | x in d'.completions
      ensures x.status == Success <==> x.irp in DeliveredIrps(d'.deliveries)
    {
      var i :| 0 <= i < |d'.completions| && d'.completions[i] == x;
      if i >= |s.d.completions| {
        assert CompletedIrps(d'.completions)[i] == x.irp == s.d.irpList[i - |s.d.completions|];
        assert x.irp in IrpLedger(s).queue;
      } else {
        assert x in s.d.completions;
      }
    }
  }

  // ---- outcomes

  lemma RecordsStay(d: Driver, d': Driver, pc: Pc)
    requires ReturnsRecorded(d, pc) && d.completions <= d'.completions && d.freed <= d'.freed
    ensures ReturnsRecorded(d', pc)
  {
  }

  lemma OutcomeStep(s: State, s': State, t: nat)
    requires OutcomeInv(s) && Moves(s, s', t) && t in s.threads
    requires s'.d.sent == s.d.sent && s.d.completions <= s'.d.completions && s.d.freed <= s'.d.freed
    requires ReturnsRecorded(s'.d, s'.threads[t]) && Sends(s'.threads[t]) == Sends(s.threads[t])
    requires !s.threads[t].Returned?
    requires forall f :: f in s'.d.freed && f !in s.d.freed && f.fate == Refused ==>
               s'.threads[t] == Returned(SendReturned(f.msg, false))
    ensures OutcomeInv(s')
  {
    forall u | u in s'.threads ensures ReturnsRecorded(s'.d, s'.threads[u]) {
      if u != t { RecordsStay(s.d, s'.d, s.threads[u]); }
    }
    assert forall u :: u in s'.threads ==> u in s.threads && Sends(s'.threads[u]) == Sends(s.threads[u]);
    RefusalsStay(s, s', t);
  }

  lemma RefusalsStay(s: State, s': State, t: nat)
    requires OutcomeInv(s) && Moves(s, s', t) && (t in s.threads ==> !s.threads[t].Returned?)
    requires forall f :: f in s'.d.freed && f !in s.d.freed && f.fate == Refused ==>
               s'.threads[t] == Returned(SendReturned(f.msg, false))
    ensures forall f :: f in s'.d.freed && f.fate == Refused ==>
              exists u :: u in s'.threads && s'.threads[u] == Returned(SendReturned(f.msg, false))
  {
    forall f | f in s'.d.freed && f.fate == Refused
      ensures exists u :: u in s'.threads && s'.threads[u] == Returned(SendReturned(f.msg, false))
    {
      if f in s.d.freed {
        var u :| u in s.threads && s.threads[u] == Returned(SendReturned(f.msg, false));
        assert s'.threads[u] == s.threads[u];
      } else {
        assert t in s'.threads;
      }
    }
  }

  lemma DispatchReturnsRecorded(s: State, t: nat, ok: bool)
    requires t in s.threads && IsDispatch(s.threads[t]) && ReturnsRecorded(s.d, s.threads[t])
    ensures var s' := DispatchStep(s, t, ok); ReturnsRecorded(s'.d, s'.threads[t])
  {
  }

  lemma DispatchLogs(s: State, t: nat, ok: bool)
    requires t in s.threads && IsDispatch(s.threads[t])
    ensures var d' := DispatchStep(s, t, ok).d;
            d'.sent == s.d.sent && s.d.completions <= d'.completions && s.d.freed <= d'.freed
  {
  }

  lemma DispatchMoves(s: State, t: nat, ok: bool)
    requires t in s.threads && IsDispatch(s.threads[t])
    ensures var s' := DispatchStep(s, t, ok); Moves(s, s', t) && Sends(s'.threads[t]) == None
  {
  }

  lemma DispatchNeverRefuses(s: State, t: nat, ok: bool)
    requires t in s.threads && IsDispatch(s.threads[t])
    ensures var s' := DispatchStep(s, t, ok);
            forall f :: f in s'.d.freed && f !in s.d.freed ==> f.fate != Refused
  {
  }

  lemma OutcomeDispatch(s: State, t: nat, ok: bool)
    requires OutcomeInv(s) && t in s.threads && IsDispatch(s.threads[t])
    ensures OutcomeInv(DispatchStep(s, t, ok))
  {
    DispatchLogs(s, t, ok);
    DispatchMoves(s, t, ok);
    DispatchNeverRefuses(s, t, ok);
    DispatchReturnsRecorded(s, t, ok);
    OutcomeStep(s, DispatchStep(s, t, ok), t);
  }

  lemma SendLogs(s: State, t: nat, ok: bool)
    requires t in s.threads && IsSend(s.threads[t])
    ensures var d' := SendStep(s, t, ok).d;
            d'.sent == s.d.sent && s.d.completions <= d'.completions && s.d.freed <= d'.freed
  {
  }

  lemma SendMoves(s: State, t: nat, ok: bool)
    requires t in s.threads && IsSend(s.threads[t])
    ensures var s' := SendStep(s, t, ok);
            && Moves(s, s', t) && Sends(s'.threads[t]) == Sends(s.threads[t])
            && ReturnsRecorded(s'.d, s'.threads[t])
  {
  }

  lemma SendRefusals(s: State, t: nat, ok: bool)
    requires t in s.threads && IsSend(s.threads[t])
    ensures var s' := SendStep(s, t, ok);
            forall f :: f in s'.d.freed && f !in s.d.freed && f.fate == Refused ==>
              s'.threads[t] == Returned(SendReturned(f.msg, false))
  {
  }

  lemma OutcomeSend(s: State, t: nat, ok: bool)
    requires OutcomeInv(s) && t in s.threads && IsSend(s.threads[t])
    ensures OutcomeInv(SendStep(s, t, ok))
  {
    SendLogs(s, t, ok);
    SendMoves(s, t, ok);
    SendRefusals(s, t, ok);
    OutcomeStep(s, SendStep(s, t, ok), t);
  }

  lemma CancelMeets(mode: PopMode, s: State, t: nat)
    requires t in s.threads && !s.threads[t].Returned? && !IsDispatch(s.threads[t]) && !IsSend(s.threads[t])
    ensures var s' := CancelStep(mode, s, t);
            && Moves(s, s', t) && s'.d.sent == s.d.sent && s.d.completions <= s'.d.completions
            && s'.d.freed == s.d.freed && Sends(s'.threads[t]) == Sends(s.threads[t])
            && ReturnsRecorded(s'.d, s'.threads[t])
  {
  }

  lemma OutcomeCancel(mode: PopMode, s: State, t: nat)
    requires OutcomeInv(s) && t in s.threads && !s.threads[t].Returned?
    requires !IsDispatch(s.threads[t]) && !IsSend(s.threads[t])
    ensures OutcomeInv(CancelStep(mode, s, t))
  {
    CancelMeets(mode, s, t);
    OutcomeStep(s, CancelStep(mode, s, t), t);
  }

  lemma OutcomeFinalize(s: State)
    requires OutcomeInv(s)
    ensures OutcomeInv(s.(d := Shutdown(s.d)))
  {
    ShutdownEffect(s.d);
    var d' := Shutdown(s.d);
    forall f | f in d'.freed && f.fate == Refused ensures f in s.d.freed {
      var i :| 0 <= i < |d'.freed| && d'.freed[i] == f;
    }
    assert forall t :: t in s.threads ==> ReturnsRecorded(d', s.threads[t]) by {
      forall t | t in s.threads ensures ReturnsRecorded(d', s.threads[t]) {
        RecordsStay(s.d, d', s.threads[t]);
      }
    }
  }

  // ---- all steps

  lemma DeliveryAtStart(s: State, s': State, t: nat)
    requires DeliveryInv(s) && t !in s.threads && Moves(s, s', t)
    requires s'.d == s.d.(submitted := s'.d.submitted, sent := s'.d.sent) && s.d.sent <= s'.d.sent
    requires s'.threads[t].DispPop? || s'.threads[t].SendPop? || s'.threads[t].CancelStart?
    requires s'.threads[t].SendPop? ==> s'.threads[t].msg in s'.d.sent && s'.threads[t].msg !in s.d.sent
    ensures DeliveryInv(s')
  {
    ReleaseQuiet(s, s', t);
    RefusalsStay(s, s', t);
    forall u | u in s'.threads ensures ReturnsRecorded(s'.d, s'.threads[u]) {
      if u != t { RecordsStay(s.d, s'.d, s.threads[u]); }
    }
    assert forall u :: u in s.threads ==> u != t && Sends(s'.threads[u]) == Sends(s.threads[u]);
  }

  lemma DeliveryAdvance(mode: PopMode, s: State, t: nat, ok: bool)
    requires DeliveryInv(s) && Linear(IrpLedger(s)) && Linear(MsgLedger(s)) && Enabled(s, Advance(t, ok))
    ensures DeliveryInv(Do(mode, s, Advance(t, ok)))
  {
    if IsDispatch(s.threads[t]) {
      ReleaseDispatch(s, t, ok);
      SuccessDispatch(s, t, ok);
      OutcomeDispatch(s, t, ok);
    } else if IsSend(s.threads[t]) {
      ReleaseSend(s, t, ok);
      SuccessSend(s, t, ok);
      OutcomeSend(s, t, ok);
    } else {
      ReleaseCancel(mode, s, t);
      SuccessCancel(mode, s, t);
      OutcomeCancel(mode, s, t);
    }
  }

  lemma ReleaseCancel(mode: PopMode, s: State, t: nat)
    requires ReleaseInv(s) && t in s.threads && !s.threads[t].Returned?
    requires !IsDispatch(s.threads[t]) && !IsSend(s.threads[t])
    ensures ReleaseInv(CancelStep(mode, s, t))
  {
    ReleaseQuiet(s, CancelStep(mode, s, t), t);
  }

  lemma DeliveryStays(mode: PopMode, s: State, a: Action)
    requires DeliveryInv(s) && Linear(IrpLedger(s)) && Linear(MsgLedger(s)) && Enabled(s, a)
    ensures DeliveryInv(Do(mode, s, a))
  {
    match a
    case StartDispatch(t, _) => DeliveryAtStart(s, Do(mode, s, a), t);
    case StartSend(t, _) => DeliveryAtStart(s, Do(mode, s, a), t);
    case StartCancel(t, _) => DeliveryAtStart(s, Do(mode, s, a), t);
    case Finalize =>
      ReleaseFinalize(s);
      SuccessFinalize(s);
      OutcomeFinalize(s);
    case Advance(t, ok) => DeliveryAdvance(mode, s, t, ok);
  }
}
