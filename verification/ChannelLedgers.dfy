/** Requests and messages of the channel as linear resources: who has each of them. */
module ChannelLedgers {
  import opened Common
  import opened Channel
  import opened Ledgers

  /** The requests a call has in hand: it alone may complete them. */
  function IrpsOf(pc: Pc): set<Irp> {
    match pc
    case DispPop(irp) => {irp}
    case DispCopy(irp, _) => {irp}
    case DispPend(irp) => {irp}
    case DispTest(irp) => {irp}
    case DispAbort(irp) => {irp}
    case DispCancelled(irp) => {irp}
    case DispPush(irp) => {irp}
    case DispDisarm(irp) => {irp}
    case DispRelease(irp) => {irp}
    case DispNoMemory(irp) => {irp}
    case SendExchange(_, irp) => {irp}
    case SendCancel(_, irp) => {irp}
    case SendCopy(_, irp) => {irp}
    case CancelComplete(irp) => {irp}
    case _ => {}
  }

  /** The messages a call has in hand: it alone may release them. */
  function MsgsOf(pc: Pc): set<Msg> {
    match pc
    case DispCopy(_, msg) => {msg}
    case DispFree(_, msg) => {msg}
    case DispRepush(_, msg) => {msg}
    case DispDrop(_, msg) => {msg}
    case SendPop(msg) => {msg}
    case SendExchange(msg, _) => {msg}
    case SendCancel(msg, _) => {msg}
    case SendCopy(msg, _) => {msg}
    case SendFree(msg) => {msg}
    case SendSize(msg) => {msg}
    case SendEvict(msg) => {msg}
    case SendDrop(msg, oldest) => {msg, oldest}
    case SendPush(msg) => {msg}
    case SendRefuse(msg) => {msg}
    case _ => {}
  }

  function CompletedIrps(cs: seq<Completion>): seq<Irp> {
    seq(|cs|, i requires 0 <= i < |cs| => cs[i].irp)
  }

  function FreedMsgs(fs: seq<Freed>): seq<Msg> {
    seq(|fs|, i requires 0 <= i < |fs| => fs[i].msg)
  }

  ghost function IrpLedger(s: State): Ledger<Irp> {
    Ledger(s.d.submitted, map t | t in s.threads :: IrpsOf(s.threads[t]),
           s.d.irpList, CompletedIrps(s.d.completions))
  }

  ghost function MsgLedger(s: State): Ledger<Msg> {
    Ledger(s.d.sent, map t | t in s.threads :: MsgsOf(s.threads[t]),
           s.d.dataList, FreedMsgs(s.d.freed))
  }

  lemma CompletedIrpsSnoc(cs: seq<Completion>, c: Completion)
    ensures CompletedIrps(cs + [c]) == CompletedIrps(cs) + [c.irp]
  {
  }

  lemma FreedMsgsSnoc(fs: seq<Freed>, f: Freed)
    ensures FreedMsgs(fs + [f]) == FreedMsgs(fs) + [f.msg]
  {
  }

  // ---- finalize

  lemma {:induction false} CompleteAllEffect(d: Driver, irps: seq<Irp>)
    ensures var d' := CompleteAll(d, irps);
            && d' == d.(completions := d'.completions)
            && CompletedIrps(d'.completions) == CompletedIrps(d.completions) + irps
            && d.completions <= d'.completions
            && (forall i :: |d.completions| <= i < |d'.completions| ==> d'.completions[i].status == Cancelled)
    decreases |irps|
  {
    if irps != [] {
      CompletedIrpsSnoc(d.completions, Completion(irps[0], Cancelled));
      CompleteAllEffect(Complete(d, irps[0], Cancelled), irps[1..]);
      assert irps == [irps[0]] + irps[1..];
    }
  }

  lemma {:induction false} FreeAllEffect(d: Driver, msgs: seq<Msg>)
    ensures var d' := FreeAll(d, msgs);
            && d' == d.(freed := d'.freed)
            && FreedMsgs(d'.freed) == FreedMsgs(d.freed) + msgs
            && d.freed <= d'.freed
            && (forall i :: |d.freed| <= i < |d'.freed| ==> d'.freed[i].fate == Cleared)
    decreases |msgs|
  {
    if msgs != [] {
      FreedMsgsSnoc(d.freed, Freed(msgs[0], Cleared));
      FreeAllEffect(Free(d, msgs[0], Cleared), msgs[1..]);
      assert msgs == [msgs[0]] + msgs[1..];
    }
  }

  lemma ShutdownEffect(d: Driver)
    ensures var d' := Shutdown(d);
            && d' == d.(up := false, irpList := [], dataList := [], completions := d'.completions, freed := d'.freed)
            && CompletedIrps(d'.completions) == CompletedIrps(d.completions) + d.irpList
            && FreedMsgs(d'.freed) == FreedMsgs(d.freed) + d.dataList
            && d.completions <= d'.completions
            && (forall i :: |d.completions| <= i < |d'.completions| ==> d'.completions[i].status == Cancelled)
            && d.freed <= d'.freed
            && (forall i :: |d.freed| <= i < |d'.freed| ==> d'.freed[i].fate == Cleared)
  {
    FreeAllEffect(d, d.dataList);
    CompleteAllEffect(FreeAll(d, d.dataList), d.irpList);
  }

  // ---- the moves, as steps of thread t from s to s'

  ghost predicate Moves(s: State, s': State, t: nat) {
    t in s'.threads && s'.threads == s.threads[t := s'.threads[t]]
  }

  ghost function Irps(s: State, t: nat): set<Irp> {
    if t in s.threads then IrpsOf(s.threads[t]) else {}
  }

  ghost function Msgs(s: State, t: nat): set<Msg> {
    if t in s.threads then MsgsOf(s.threads[t]) else {}
  }

  lemma IrpKeep(s: State, s': State, t: nat)
    requires Linear(IrpLedger(s)) && Moves(s, s', t) && Irps(s', t) == Irps(s, t)
    requires s'.d.submitted == s.d.submitted && s'.d.irpList == s.d.irpList
    requires s'.d.completions == s.d.completions
    ensures Linear(IrpLedger(s'))
  {
    Keep(IrpLedger(s), t);
    assert IrpLedger(s') == SetHeld(IrpLedger(s), t, Irps(s, t));
  }

  lemma IrpFinish(s: State, s': State, t: nat, c: Completion)
    requires Linear(IrpLedger(s)) && Moves(s, s', t) && c.irp in Irps(s, t)
    requires Irps(s', t) == Irps(s, t) - {c.irp}
    requires s'.d.submitted == s.d.submitted && s'.d.irpList == s.d.irpList
    requires s'.d.completions == s.d.completions + [c]
    ensures Linear(IrpLedger(s'))
  {
    CompletedIrpsSnoc(s.d.completions, c);
    Finish(IrpLedger(s), t, c.irp);
    assert IrpLedger(s') == FinishFrom(IrpLedger(s), t, c.irp);
  }

  lemma IrpPush(s: State, s': State, t: nat, irp: Irp)
    requires Linear(IrpLedger(s)) && Moves(s, s', t) && irp in Irps(s, t)
    requires Irps(s', t) == Irps(s, t) - {irp}
    requires s'.d.submitted == s.d.submitted && s'.d.irpList == s.d.irpList + [irp]
    requires s'.d.completions == s.d.completions
    ensures Linear(IrpLedger(s'))
  {
    Push(IrpLedger(s), t, irp);
    assert IrpLedger(s') == PushFrom(IrpLedger(s), t, irp);
  }

  lemma IrpPop(s: State, s': State, t: nat, i: nat)
    requires Linear(IrpLedger(s)) && Moves(s, s', t) && t in s.threads && i < |s.d.irpList|
    requires Irps(s', t) == Irps(s, t) + {s.d.irpList[i]}
    requires s'.d.submitted == s.d.submitted
    requires s'.d.irpList == s.d.irpList[..i] + s.d.irpList[i + 1..]
    requires s'.d.completions == s.d.completions
    ensures Linear(IrpLedger(s'))
  {
    PopAt(IrpLedger(s), t, i);
    assert IrpLedger(s') == PopTo(IrpLedger(s), t, i);
  }

  lemma MsgKeep(s: State, s': State, t: nat)
    requires Linear(MsgLedger(s)) && Moves(s, s', t) && Msgs(s', t) == Msgs(s, t)
    requires s'.d.sent == s.d.sent && s'.d.dataList == s.d.dataList && s'.d.freed == s.d.freed
    ensures Linear(MsgLedger(s'))
  {
    Keep(MsgLedger(s), t);
    assert MsgLedger(s') == SetHeld(MsgLedger(s), t, Msgs(s, t));
  }

  lemma MsgFinish(s: State, s': State, t: nat, f: Freed)
    requires Linear(MsgLedger(s)) && Moves(s, s', t) && f.msg in Msgs(s, t)
    requires Msgs(s', t) == Msgs(s, t) - {f.msg}
    requires s'.d.sent == s.d.sent && s'.d.dataList == s.d.dataList && s'.d.freed == s.d.freed + [f]
    ensures Linear(MsgLedger(s'))
  {
    FreedMsgsSnoc(s.d.freed, f);
    Finish(MsgLedger(s), t, f.msg);
    assert MsgLedger(s') == FinishFrom(MsgLedger(s), t, f.msg);
  }

  lemma MsgPush(s: State, s': State, t: nat, msg: Msg)
    requires Linear(MsgLedger(s)) && Moves(s, s', t) && msg in Msgs(s, t)
    requires Msgs(s', t) == Msgs(s, t) - {msg}
    requires s'.d.sent == s.d.sent && s'.d.dataList == s.d.dataList + [msg] && s'.d.freed == s.d.freed
    ensures Linear(MsgLedger(s'))
  {
    Push(MsgLedger(s), t, msg);
    assert MsgLedger(s') == PushFrom(MsgLedger(s), t, msg);
  }

  lemma MsgPop(s: State, s': State, t: nat)
    requires Linear(MsgLedger(s)) && Moves(s, s', t) && t in s.threads && s.d.dataList != []
    requires Msgs(s', t) == Msgs(s, t) + {s.d.dataList[0]}
    requires s'.d.sent == s.d.sent && s'.d.dataList == s.d.dataList[1..] && s'.d.freed == s.d.freed
    ensures Linear(MsgLedger(s'))
  {
    PopAt(MsgLedger(s), t, 0);
    assert MsgLedger(s') == PopTo(MsgLedger(s), t, 0);
  }

  // ---- one step moves at most one request and at most one message

  lemma IrpsDispatch(s: State, t: nat, ok: bool)
    requires Linear(IrpLedger(s)) && t in s.threads && IsDispatch(s.threads[t])
    ensures Linear(IrpLedger(DispatchStep(s, t, ok)))
  {
    var s', pc := DispatchStep(s, t, ok), s.threads[t];
    if |s'.d.completions| > |s.d.completions| {
      IrpFinish(s, s', t, s'.d.completions[|s.d.completions|]);
    } else if pc.DispPush? && ok {
      IrpPush(s, s', t, pc.irp);
    } else {
      IrpKeep(s, s', t);
    }
  }

  lemma IrpsSend(s: State, t: nat, ok: bool)
    requires Linear(IrpLedger(s)) && t in s.threads && IsSend(s.threads[t])
    ensures Linear(IrpLedger(SendStep(s, t, ok)))
  {
    var s', pc := SendStep(s, t, ok), s.threads[t];
    if |s'.d.completions| > |s.d.completions| {
      IrpFinish(s, s', t, s'.d.completions[|s.d.completions|]);
    } else if pc.SendPop? && s.d.up && s.d.irpList != [] {
      IrpPop(s, s', t, 0);
    } else {
      IrpKeep(s, s', t);
    }
  }

  lemma IrpsCancelPop(mode: PopMode, s: State, t: nat)
    requires Linear(IrpLedger(s)) && t in s.threads && s.threads[t].CancelPop?
    requires mode == Exact || !PopMisses(s, Advance(t, true))
    ensures Linear(IrpLedger(CancelStep(mode, s, t)))
  {
    var s', irp := CancelStep(mode, s, t), s.threads[t].irp;
    if s.d.up && irp in s.d.irpList {
      var i := FirstIndex(s.d.irpList, irp);
      IrpPop(s, s', t, i);
    } else {
      IrpKeep(s, s', t);
    }
  }

  lemma IrpsCancel(mode: PopMode, s: State, t: nat, ok: bool)
    requires Linear(IrpLedger(s)) && Enabled(s, Advance(t, ok))
    requires !IsDispatch(s.threads[t]) && !IsSend(s.threads[t])
    requires mode == Exact || !PopMisses(s, Advance(t, ok))
    ensures Linear(IrpLedger(CancelStep(mode, s, t)))
  {
    var s', pc := CancelStep(mode, s, t), s.threads[t];
    if pc.CancelComplete? {
      IrpFinish(s, s', t, Completion(pc.irp, Cancelled));
    } else if pc.CancelPop? {
      IrpsCancelPop(mode, s, t);
    } else {
      IrpKeep(s, s', t);
    }
  }

  /** Unless a literal Pop(buffer) misses, a step keeps every request in exactly one place. */
  lemma IrpsStayLinear(mode: PopMode, s: State, a: Action)
    requires Linear(IrpLedger(s)) && Enabled(s, a)
    requires mode == Exact || !PopMisses(s, a)
    ensures Linear(IrpLedger(Do(mode, s, a)))
  {
    var l, s' := IrpLedger(s), Do(mode, s, a);
    match a
    case StartDispatch(t, irp) =>
      Enter(l, t, irp);
      assert IrpLedger(s') == EnterTo(l, t, irp);
    case StartSend(t, _) => IrpKeep(s, s', t);
    case StartCancel(t, _) => IrpKeep(s, s', t);
    case Finalize =>
      ShutdownEffect(s.d);
      Drain(l);
      assert IrpLedger(s') == l.(queue := [], finished := l.finished + l.queue);
    case Advance(t, ok) =>
      if IsDispatch(s.threads[t]) {
        IrpsDispatch(s, t, ok);
      } else if IsSend(s.threads[t]) {
        IrpsSend(s, t, ok);
      } else {
        IrpsCancel(mode, s, t, ok);
      }
  }

  /** A sender never evicts the very message it sends. */
  ghost predicate EvictsOther(s: State) {
    forall t :: t in s.threads && s.threads[t].SendDrop? ==> s.threads[t].msg != s.threads[t].oldest
  }

  lemma MsgsDispatch(s: State, t: nat, ok: bool)
    requires Linear(MsgLedger(s)) && t in s.threads && IsDispatch(s.threads[t])
    ensures Linear(MsgLedger(DispatchStep(s, t, ok)))
  {
    var s', pc := DispatchStep(s, t, ok), s.threads[t];
    if |s'.d.freed| > |s.d.freed| {
      MsgFinish(s, s', t, s'.d.freed[|s.d.freed|]);
    } else if pc.DispRepush? && ok {
      MsgPush(s, s', t, pc.msg);
    } else if pc.DispPop? && s.d.up && s.d.dataList != [] {
      MsgPop(s, s', t);
    } else {
      MsgKeep(s, s', t);
    }
  }

  lemma MsgsSend(s: State, t: nat, ok: bool)
    requires Linear(MsgLedger(s)) && EvictsOther(s) && t in s.threads && IsSend(s.threads[t])
    ensures Linear(MsgLedger(SendStep(s, t, ok)))
  {
    var s', pc := SendStep(s, t, ok), s.threads[t];
    if |s'.d.freed| > |s.d.freed| {
      MsgFinish(s, s', t, s'.d.freed[|s.d.freed|]);
    } else if pc.SendPush? && ok {
      MsgPush(s, s', t, pc.msg);
    } else if pc.SendEvict? && s.d.dataList != [] {
      MsgPop(s, s', t);
    } else {
      MsgKeep(s, s', t);
    }
  }

  lemma MsgsCancel(mode: PopMode, s: State, t: nat)
    requires Linear(MsgLedger(s)) && t in s.threads
    requires !IsDispatch(s.threads[t]) && !IsSend(s.threads[t]) && !s.threads[t].Returned?
    ensures Linear(MsgLedger(CancelStep(mode, s, t)))
  {
    var s' := CancelStep(mode, s, t);
    assert Moves(s, s', t) && Msgs(s', t) == {} == Msgs(s, t);
    MsgKeep(s, s', t);
  }

  lemma EvictionPopsOther(s: State, t: nat)
    requires Linear(MsgLedger(s)) && t in s.threads && s.threads[t].SendEvict? && s.d.dataList != []
    ensures s.threads[t].msg != s.d.dataList[0]
  {
    assert Holds(MsgLedger(s), t, s.threads[t].msg);
    assert s.d.dataList[0] in MsgLedger(s).queue;
  }

  lemma StaysEvictingOther(mode: PopMode, s: State, a: Action)
    requires Linear(MsgLedger(s)) && EvictsOther(s) && Enabled(s, a)
    ensures EvictsOther(Do(mode, s, a))
  {
    if a.Advance? && s.threads[a.t].SendEvict? && s.d.dataList != [] {
      EvictionPopsOther(s, a.t);
    }
  }

  lemma MsgsEnter(mode: PopMode, s: State, t: nat, msg: Msg)
    requires Linear(MsgLedger(s)) && Enabled(s, StartSend(t, msg))
    ensures Linear(MsgLedger(Do(mode, s, StartSend(t, msg))))
  {
    Enter(MsgLedger(s), t, msg);
    assert MsgLedger(Do(mode, s, StartSend(t, msg))) == EnterTo(MsgLedger(s), t, msg);
  }

  lemma MsgsFinalize(s: State)
    requires Linear(MsgLedger(s))
    ensures Linear(MsgLedger(s.(d := Shutdown(s.d))))
  {
    var l, s' := MsgLedger(s), s.(d := Shutdown(s.d));
    ShutdownEffect(s.d);
    Drain(l);
    assert MsgLedger(s') == l.(queue := [], finished := l.finished + l.queue);
  }

  lemma MsgsAdvance(mode: PopMode, s: State, t: nat, ok: bool)
    requires Linear(MsgLedger(s)) && EvictsOther(s) && Enabled(s, Advance(t, ok))
    ensures Linear(MsgLedger(Do(mode, s, Advance(t, ok))))
  {
    if IsDispatch(s.threads[t]) {
      MsgsDispatch(s, t, ok);
    } else if IsSend(s.threads[t]) {
      MsgsSend(s, t, ok);
    } else {
      MsgsCancel(mode, s, t);
    }
  }

  /** A step keeps every message in exactly one place, whatever Pop(buffer) does. */
  lemma MsgsStayLinear(mode: PopMode, s: State, a: Action)
    requires Linear(MsgLedger(s)) && EvictsOther(s) && Enabled(s, a)
    ensures Linear(MsgLedger(Do(mode, s, a)))
  {
    match a
    case StartDispatch(t, _) => MsgKeep(s, Do(mode, s, a), t);
    case StartSend(t, msg) => MsgsEnter(mode, s, t, msg);
    case StartCancel(t, _) => MsgKeep(s, Do(mode, s, a), t);
    case Finalize => MsgsFinalize(s);
    case Advance(t, ok) => MsgsAdvance(mode, s, t, ok);
  }
}
