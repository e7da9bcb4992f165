/** Fine-grained runs whose calls do not overlap: between calls the driver is in the state that the
    calls, taken as atomic, lead to. */
module SequentialRuns {
  import opened Channel
  import opened BoundedChannel
  import opened MessageOrder
  import opened ChannelDelivery
  import Calls = AtomicCalls

  /** Calls are started only when no call is in flight, and the driver is not shut down. */
  ghost predicate Sequential(states: seq<State>, actions: seq<Action>)
    requires |states| == |actions| + 1
  {
    forall i :: 0 <= i < |actions| && !actions[i].Advance? ==> Quiescent(states[i]) && actions[i] != Finalize
  }

  // ---- what is left of a call

  function AfterPush(d: Driver, msg: Msg, ok: bool): Driver {
    if ok then d.(dataList := d.dataList + [msg]) else Free(d, msg, Refused)
  }

  function AfterRepush(d: Driver, msg: Msg, ok: bool): Driver {
    if ok then d.(dataList := d.dataList + [msg]) else Free(d, msg, Dropped)
  }

  function RestOfDispatch(d: Driver, pc: Pc, ok: bool): Driver
    requires IsDispatch(pc)
  {
    match pc
    case DispPop(irp) =>
      if !d.up then Complete(d, irp, DeviceNotReady)
      else if d.dataList != [] then
        Calls.Answer(d.(dataList := d.dataList[1..]), irp, d.dataList[0], ok).0
      else Calls.Park(d, irp, ok)
    case DispCopy(irp, msg) => Calls.Answer(d, irp, msg, ok).0
    case DispFree(_, msg) => Free(d, msg, Delivered)
    case DispRepush(_, msg) => AfterRepush(d, msg, ok)
    case DispDrop(_, msg) => Free(d, msg, Dropped)
    case DispPend(irp) => Calls.Park(d, irp, ok)
    case DispTest(irp) => Calls.Park(d, irp, ok)
    case DispAbort(irp) => Complete(d, irp, Cancelled)
    case DispCancelled(irp) => Complete(d, irp, Cancelled)
    case DispPush(irp) =>
      if ok then d.(irpList := d.irpList + [irp]) else Complete(d.(armed := d.armed - {irp}), irp, NoMemory)
    case DispUnlock(_) => d
    case DispDisarm(irp) => Complete(d.(armed := d.armed - {irp}), irp, NoMemory)
    case DispRelease(irp) => Complete(d, irp, NoMemory)
    case DispNoMemory(irp) => Complete(d, irp, NoMemory)
  }

  function RestOfSend(d: Driver, pc: Pc, ok: bool): Driver
    requires IsSend(pc)
  {
    match pc
    case SendPop(msg) =>
      if !d.up then Free(d, msg, Refused)
      else if d.irpList != [] then Calls.Offer(d.(irpList := d.irpList[1..]), d.irpList[0], msg, ok).0
      else Calls.Enqueue(d, msg, ok).0
    case SendExchange(msg, irp) => Calls.Offer(d, irp, msg, ok).0
    case SendCancel(msg, irp) => Calls.Enqueue(Complete(d, irp, Cancelled), msg, ok).0
    case SendCopy(msg, irp) =>
      var d1 := CopyOut(d, irp, msg);
      if msg.size <= irp.outputLength then Free(d1, msg, Delivered) else Calls.Enqueue(d1, msg, ok).0
    case SendFree(msg) => Free(d, msg, Delivered)
    case SendSize(msg) => Calls.Enqueue(d, msg, ok).0
    case SendEvict(msg) =>
      if d.dataList == [] then AfterPush(d, msg, ok)
      else AfterPush(Free(d.(dataList := d.dataList[1..]), d.dataList[0], Evicted), msg, ok)
    case SendDrop(msg, oldest) => AfterPush(Free(d, oldest, Evicted), msg, ok)
    case SendPush(msg) => AfterPush(d, msg, ok)
    case SendRefuse(msg) => Free(d, msg, Refused)
  }

  function RestOfCancel(mode: PopMode, d: Driver, pc: Pc): Driver {
    match pc
    case CancelStart(irp) => Calls.Cancel(mode, d, irp)
    case CancelMark(irp) => Calls.Cancel(mode, d, irp)
    case CancelExchange(irp) =>
      if irp in d.armed then Calls.TakeOut(mode, d.(armed := d.armed - {irp}), irp) else d
    case CancelRelease(irp) => Calls.TakeOut(mode, d, irp)
    case CancelPop(irp) => Calls.TakeOut(mode, d, irp)
    case CancelComplete(irp) => Complete(d, irp, Cancelled)
    case _ => d
  }

  /** The state in which a call ends that goes on from pc alone, if its allocation ends as ok says. */
  function Rest(mode: PopMode, d: Driver, pc: Pc, ok: bool): Driver {
    if IsDispatch(pc) then RestOfDispatch(d, pc, ok)
    else if IsSend(pc) then RestOfSend(d, pc, ok)
    else RestOfCancel(mode, d, pc)
  }

  /** After one step, s' goes on to where the thread went before, unless that step has settled
      the allocation. */
  ghost predicate GoesOn(mode: PopMode, s: State, s': State, t: nat, ok: bool, later: bool)
    requires t in s.threads && t in s'.threads
  {
    var rest := Rest(mode, s'.d, s'.threads[t], later);
    rest == Rest(mode, s.d, s.threads[t], later) || rest == Rest(mode, s.d, s.threads[t], ok)
  }

  lemma AnswerGoesOn(mode: PopMode, s: State, t: nat, ok: bool, later: bool)
    requires t in s.threads && (var pc := s.threads[t]; pc.DispCopy? || pc.DispFree? || pc.DispRepush? || pc.DispDrop?)
    ensures GoesOn(mode, s, DispatchStep(s, t, ok), t, ok, later)
  {
  }

  lemma PopGoesOn(mode: PopMode, s: State, t: nat, ok: bool, later: bool)
    requires t in s.threads && s.threads[t].DispPop?
    ensures GoesOn(mode, s, DispatchStep(s, t, ok), t, ok, later)
  {
  }

  lemma TestGoesOn(mode: PopMode, s: State, t: nat, ok: bool, later: bool)
    requires t in s.threads && (s.threads[t].DispPend? || s.threads[t].DispTest?)
    ensures GoesOn(mode, s, DispatchStep(s, t, ok), t, ok, later)
  {
    var d, pc := s.d, s.threads[t];
    if pc.DispTest? && pc.irp !in d.cancelFlag {
      assert (d.armed + {pc.irp}) - {pc.irp} == d.armed - {pc.irp};
    }
  }

  lemma ParkGoesOn(mode: PopMode, s: State, t: nat, ok: bool, later: bool)
    requires t in s.threads
    requires var pc := s.threads[t];
             || pc.DispAbort? || pc.DispCancelled? || pc.DispPush? || pc.DispUnlock?
             || pc.DispDisarm? || pc.DispRelease? || pc.DispNoMemory?
    ensures GoesOn(mode, s, DispatchStep(s, t, ok), t, ok, later)
  {
  }

  lemma DispatchGoesOn(mode: PopMode, s: State, t: nat, ok: bool, later: bool)
    requires t in s.threads && IsDispatch(s.threads[t])
    ensures GoesOn(mode, s, DispatchStep(s, t, ok), t, ok, later)
  {
    var pc := s.threads[t];
    if pc.DispPop? {
      PopGoesOn(mode, s, t, ok, later);
    } else if pc.DispCopy? || pc.DispFree? || pc.DispRepush? || pc.DispDrop? {
      AnswerGoesOn(mode, s, t, ok, later);
    } else if pc.DispPend? || pc.DispTest? {
      TestGoesOn(mode, s, t, ok, later);
    } else {
      ParkGoesOn(mode, s, t, ok, later);
    }
  }

  lemma FirstPopGoesOn(mode: PopMode, s: State, t: nat, ok: bool, later: bool)
    requires t in s.threads && s.threads[t].SendPop?
    ensures GoesOn(mode, s, SendStep(s, t, ok), t, ok, later)
  {
  }

  lemma OfferGoesOn(mode: PopMode, s: State, t: nat, ok: bool, later: bool)
    requires t in s.threads
    requires var pc := s.threads[t]; pc.SendExchange? || pc.SendCancel? || pc.SendCopy? || pc.SendFree?
    ensures GoesOn(mode, s, SendStep(s, t, ok), t, ok, later)
  {
  }

  lemma SizeGoesOn(mode: PopMode, s: State, t: nat, ok: bool, later: bool)
    requires t in s.threads && s.threads[t].SendSize?
    ensures GoesOn(mode, s, SendStep(s, t, ok), t, ok, later)
  {
  }

  lemma EnqueueGoesOn(mode: PopMode, s: State, t: nat, ok: bool, later: bool)
    requires t in s.threads
    requires var pc := s.threads[t]; pc.SendEvict? || pc.SendDrop? || pc.SendPush? || pc.SendRefuse?
    ensures GoesOn(mode, s, SendStep(s, t, ok), t, ok, later)
  {
  }

  lemma SendGoesOn(mode: PopMode, s: State, t: nat, ok: bool, later: bool)
    requires t in s.threads && IsSend(s.threads[t])
    ensures GoesOn(mode, s, SendStep(s, t, ok), t, ok, later)
  {
    var pc := s.threads[t];
    if pc.SendPop? {
      FirstPopGoesOn(mode, s, t, ok, later);
    } else if pc.SendSize? {
      SizeGoesOn(mode, s, t, ok, later);
    } else if pc.SendExchange? || pc.SendCancel? || pc.SendCopy? || pc.SendFree? {
      OfferGoesOn(mode, s, t, ok, later);
    } else {
      EnqueueGoesOn(mode, s, t, ok, later);
    }
  }

  lemma MarkGoesOn(mode: PopMode, s: State, t: nat, ok: bool, later: bool)
    requires t in s.threads && (s.threads[t].CancelStart? || s.threads[t].CancelMark?)
    ensures GoesOn(mode, s, CancelStep(mode, s, t), t, ok, later)
  {
  }

  lemma ExchangeGoesOn(mode: PopMode, s: State, t: nat, ok: bool, later: bool)
    requires t in s.threads && (s.threads[t].CancelExchange? || s.threads[t].CancelGiveUp?)
    ensures GoesOn(mode, s, CancelStep(mode, s, t), t, ok, later)
  {
    var d, pc := s.d, s.threads[t];
    if pc.CancelExchange? && pc.irp !in d.armed {
      assert d.(armed := d.armed - {pc.irp}) == d;
    }
  }

  lemma RevokeGoesOn(mode: PopMode, s: State, t: nat, ok: bool, later: bool)
    requires t in s.threads && (s.threads[t].CancelRelease? || s.threads[t].CancelPop? || s.threads[t].CancelComplete?)
    ensures GoesOn(mode, s, CancelStep(mode, s, t), t, ok, later)
  {
  }

  lemma CancelGoesOn(mode: PopMode, s: State, t: nat, ok: bool, later: bool)
    requires t in s.threads && !IsDispatch(s.threads[t]) && !IsSend(s.threads[t]) && !s.threads[t].Returned?
    ensures GoesOn(mode, s, CancelStep(mode, s, t), t, ok, later)
  {
    var pc := s.threads[t];
    if pc.CancelStart? || pc.CancelMark? {
      MarkGoesOn(mode, s, t, ok, later);
    } else if pc.CancelExchange? || pc.CancelGiveUp? {
      ExchangeGoesOn(mode, s, t, ok, later);
    } else {
      RevokeGoesOn(mode, s, t, ok, later);
    }
  }

  // ---- one call in flight

  function WithAlloc(c: Call, ok: bool): Call {
    match c
    case Read(irp, _) => Read(irp, ok)
    case Post(msg, _) => Post(msg, ok)
    case Revoke(_) => c
  }

  /** The call that an action starts, its allocation still open. */
  function Started(a: Action): Call
    requires !a.Advance? && a != Finalize
  {
    match a
    case StartDispatch(_, irp) => Read(irp, true)
    case StartSend(_, msg) => Post(msg, true)
    case StartCancel(_, irp) => Revoke(irp)
  }

  function StartedAll(actions: seq<Action>): seq<Call> {
    if actions == [] then []
    else
      var init, a := StartedAll(actions[..|actions| - 1]), actions[|actions| - 1];
      if a.Advance? || a == Finalize then init else init + [Started(a)]
  }

  /** The same calls, but for what becomes of their allocations. */
  predicate SameCalls(a: seq<Call>, b: seq<Call>) {
    |a| == |b| && forall i :: 0 <= i < |a| ==> WithAlloc(a[i], true) == WithAlloc(b[i], true)
  }

  ghost predicate OnlyInFlight(s: State, t: nat) {
    t in s.threads && !s.threads[t].Returned? && forall u :: u in s.threads && u != t ==> s.threads[u].Returned?
  }

  ghost predicate EndsLike(mode: PopMode, end: Driver, d0: Driver, c: Call) {
    end == Perform(mode, d0, WithAlloc(c, true)) || end == Perform(mode, d0, WithAlloc(c, false))
  }

  /** Thread t performs call c, begun in d0; however its allocation ends it does so as c would. */
  ghost predicate Performs(mode: PopMode, s: State, t: nat, d0: Driver, c: Call) {
    && t in s.threads
    && forall ok :: EndsLike(mode, Rest(mode, s.d, s.threads[t], ok), d0, c)
  }

  lemma StartPerforms(mode: PopMode, s: State, a: Action)
    requires Enabled(s, a) && !a.Advance? && a != Finalize
    ensures Performs(mode, Do(mode, s, a), a.t, s.d, Started(a)) && Legal(s.d, Started(a))
  {
    var s', c := Do(mode, s, a), Started(a);
    forall ok ensures EndsLike(mode, Rest(mode, s'.d, s'.threads[a.t], ok), s.d, c) {
      if a.StartDispatch? {
        assert s'.d == s.d.(submitted := s.d.submitted + {a.irp});
      } else if a.StartSend? {
        assert s'.d == s.d.(sent := s.d.sent + {a.msg});
      }
    }
  }

  lemma AdvancePerforms(mode: PopMode, s: State, t: nat, ok: bool, d0: Driver, c: Call)
    requires Enabled(s, Advance(t, ok)) && Performs(mode, s, t, d0, c)
    ensures Performs(mode, Do(mode, s, Advance(t, ok)), t, d0, c)
  {
    var s' := Do(mode, s, Advance(t, ok));
    assert EndsLike(mode, Rest(mode, s.d, s.threads[t], ok), d0, c);
    forall later ensures EndsLike(mode, Rest(mode, s'.d, s'.threads[t], later), d0, c) {
      assert EndsLike(mode, Rest(mode, s.d, s.threads[t], later), d0, c);
      if IsDispatch(s.threads[t]) {
        DispatchGoesOn(mode, s, t, ok, later);
      } else if IsSend(s.threads[t]) {
        SendGoesOn(mode, s, t, ok, later);
      } else {
        CancelGoesOn(mode, s, t, ok, later);
      }
    }
  }

  lemma AdvanceStaysAlone(mode: PopMode, s: State, t: nat, ok: bool, u: nat)
    requires Enabled(s, Advance(t, ok)) && OnlyInFlight(s, u)
    ensures u == t
    ensures var s' := Do(mode, s, Advance(t, ok)); Quiescent(s') || OnlyInFlight(s', t)
  {
  }

  // ---- whole runs

  /** The calls so far explain the state: all have returned, or the last is in flight. */
  ghost predicate Explains(mode: PopMode, s: State, calls: seq<Call>) {
    && AllLegal(mode, calls)
    && (Quiescent(s) ==> s.d == PerformAll(mode, calls))
    && (!Quiescent(s) ==>
          && calls != []
          && exists t :: OnlyInFlight(s, t)
                         && Performs(mode, s, t, PerformAll(mode, calls[..|calls| - 1]), calls[|calls| - 1]))
  }

  lemma ExplainsStart(mode: PopMode, s: State, a: Action, calls: seq<Call>)
    requires Enabled(s, a) && Quiescent(s) && !a.Advance? && a != Finalize && Explains(mode, s, calls)
    ensures Explains(mode, Do(mode, s, a), calls + [Started(a)])
  {
    var s', calls' := Do(mode, s, a), calls + [Started(a)];
    assert calls'[..|calls|] == calls;
    StartPerforms(mode, s, a);
    assert !s'.threads[a.t].Returned?;
    assert OnlyInFlight(s', a.t);
  }

  lemma LastReplaced(mode: PopMode, calls: seq<Call>, b: bool) returns (calls': seq<Call>)
    requires calls != [] && AllLegal(mode, calls)
    ensures AllLegal(mode, calls') && SameCalls(calls, calls')
    ensures var n := |calls| - 1;
            PerformAll(mode, calls') == Perform(mode, PerformAll(mode, calls[..n]), WithAlloc(calls[n], b))
  {
    var n := |calls| - 1;
    calls' := calls[..n] + [WithAlloc(calls[n], b)];
    assert calls'[..n] == calls[..n];
  }

  lemma ReturnedLike(mode: PopMode, s: State, t: nat, d0: Driver, c: Call) returns (b: bool)
    requires t in s.threads && s.threads[t].Returned? && Performs(mode, s, t, d0, c)
    ensures s.d == Perform(mode, d0, WithAlloc(c, b))
  {
    assert Rest(mode, s.d, s.threads[t], true) == s.d;
    assert EndsLike(mode, s.d, d0, c);
    b := s.d == Perform(mode, d0, WithAlloc(c, true));
  }

  /** The last call has returned: its allocation ended one way or the other. */
  lemma ExplainsReturn(mode: PopMode, s': State, t: nat, calls: seq<Call>) returns (calls': seq<Call>)
    requires calls != [] && AllLegal(mode, calls) && Quiescent(s') && t in s'.threads
    requires Performs(mode, s', t, PerformAll(mode, calls[..|calls| - 1]), calls[|calls| - 1])
    ensures Explains(mode, s', calls') && SameCalls(calls, calls')
  {
    var n := |calls| - 1;
    var b := ReturnedLike(mode, s', t, PerformAll(mode, calls[..n]), calls[n]);
    calls' := LastReplaced(mode, calls, b);
  }

  lemma ExplainsAdvance(mode: PopMode, s: State, t: nat, ok: bool, calls: seq<Call>) returns (calls': seq<Call>)
    requires Enabled(s, Advance(t, ok)) && Explains(mode, s, calls)
    ensures Explains(mode, Do(mode, s, Advance(t, ok)), calls') && SameCalls(calls, calls')
  {
    var s', n := Do(mode, s, Advance(t, ok)), |calls| - 1;
    var d0, c := PerformAll(mode, calls[..n]), calls[n];
    var u :| OnlyInFlight(s, u) && Performs(mode, s, u, d0, c);
    AdvanceStaysAlone(mode, s, t, ok, u);
    AdvancePerforms(mode, s, t, ok, d0, c);
    if Quiescent(s') {
      calls' := ExplainsReturn(mode, s', t, calls);
    } else {
      calls' := calls;
    }
  }

  lemma {:induction false} Explained(mode: PopMode, states: seq<State>, actions: seq<Action>, n: nat)
    returns (calls: seq<Call>)
    requires Run(mode, states, actions) && Sequential(states, actions) && n <= |actions|
    ensures Explains(mode, states[n], calls) && SameCalls(calls, StartedAll(actions[..n]))
  {
    if n == 0 {
      calls := [];
    } else {
      assert actions[..n][..n - 1] == actions[..n - 1];
      calls := Explained(mode, states, actions, n - 1);
      var s, a := states[n - 1], actions[n - 1];
      if a.Advance? {
        calls := ExplainsAdvance(mode, s, a.t, a.allocOk, calls);
      } else {
        ExplainsStart(mode, s, a, calls);
        calls := calls + [Started(a)];
      }
    }
  }

  /** In a run whose calls do not overlap, the driver between calls is what the calls started so
      far, performed one after the other, lead to. */
  lemma RunIsCalls(mode: PopMode, states: seq<State>, actions: seq<Action>, n: nat)
    requires Run(mode, states, actions) && Sequential(states, actions) && n <= |actions| && Quiescent(states[n])
    ensures exists calls ::
              && AllLegal(mode, calls) && SameCalls(calls, StartedAll(actions[..n]))
              && states[n].d == PerformAll(mode, calls)
  {
    var calls := Explained(mode, states, actions, n);
  }

  /** Hence first in, first out holds between the calls of every such run in which each message
      sent fits each request read. */
  lemma RunIsFifo(mode: PopMode, states: seq<State>, actions: seq<Action>, n: nat)
    requires Run(mode, states, actions) && Sequential(states, actions) && n <= |actions| && Quiescent(states[n])
    requires Fits(StartedAll(actions[..n]))
    ensures var d := states[n].d;
            && (d.irpList == [] || d.dataList == [])
            && |d.dataList| <= 1024
            && exists calls ::
                 && AllLegal(mode, calls) && SameCalls(calls, StartedAll(actions[..n]))
                 && d == PerformAll(mode, calls)
                 && DeliveredMsgs(d.deliveries) + d.dataList == Minus(Accepted(mode, calls), EvictedMsgs(d))
  {
    var calls := Explained(mode, states, actions, n);
    var started := StartedAll(actions[..n]);
    forall i, j | 0 <= i < |calls| && 0 <= j < |calls| && calls[i].Post? && calls[j].Read?
      ensures calls[i].msg.size <= calls[j].irp.outputLength
    {
      assert WithAlloc(calls[i], true) == WithAlloc(started[i], true);
      assert WithAlloc(calls[j], true) == WithAlloc(started[j], true);
      assert started[i].msg == calls[i].msg && started[j].irp == calls[j].irp;
    }
    Fifo(mode, calls);
  }
}
