/** Calls that do not overlap: the effect of a whole Dispatcher, SendMessage or cancel on the
    shared state, and the proof that each is a run of the fine-grained steps. */
module AtomicCalls {
  import opened Common
  import opened Channel

  /** PendingIrpRoutine: park the request, unless it is cancelled or there is no memory. */
  function Park(d: Driver, irp: Irp, ok: bool): Driver {
    if irp in d.cancelFlag then Complete(d, irp, Cancelled)
    else if ok then d.(armed := d.armed + {irp}, irpList := d.irpList + [irp])
    else Complete(d.(armed := d.armed - {irp}), irp, NoMemory)
  }

  /** A dispatcher that has popped a message: the request gets it, or it goes back to the tail. */
  function Answer(d: Driver, irp: Irp, msg: Msg, ok: bool): (Driver, Status) {
    var d1 := CopyOut(d, irp, msg);
    if msg.size <= irp.outputLength then (Free(d1, msg, Delivered), Success)
    else if ok then (d1.(dataList := d1.dataList + [msg]), BufferTooSmall)
    else (Free(d1, msg, Dropped), BufferTooSmall)
  }

  /** Dispatcher; `ok` tells whether the list node it may need can be allocated. */
  function Dispatch(d0: Driver, irp: Irp, ok: bool): (Driver, Status) {
    var d := d0.(submitted := d0.submitted + {irp});
    if !d.up then (Complete(d, irp, DeviceNotReady), DeviceNotReady)
    else if d.dataList != [] then Answer(d.(dataList := d.dataList[1..]), irp, d.dataList[0], ok)
    else (Park(d, irp, ok), Pending)
  }

  /** Evict the oldest message from a full list. */
  function MakeRoom(d: Driver): Driver {
    if |d.dataList| >= MAX_DATA_LIST_SIZE
    then Free(d.(dataList := d.dataList[1..]), d.dataList[0], Evicted)
    else d
  }

  /** The tail of SendMessage: queue the message. */
  function Enqueue(d: Driver, msg: Msg, ok: bool): (Driver, bool) {
    var d1 := MakeRoom(d);
    if ok then (d1.(dataList := d1.dataList + [msg]), true)
    else (Free(d1, msg, Refused), false)
  }

  /** A sender that has popped a request: one that was cancelled is completed, one that is too
      small turned away, and then the message is queued. */
  function Offer(d: Driver, irp: Irp, msg: Msg, ok: bool): (Driver, bool) {
    var d1 := d.(armed := d.armed - {irp});
    if irp !in d.armed then Enqueue(Complete(d1, irp, Cancelled), msg, ok)
    else if msg.size <= irp.outputLength then (Free(CopyOut(d1, irp, msg), msg, Delivered), true)
    else Enqueue(CopyOut(d1, irp, msg), msg, ok)
  }

  /** SendMessage, with the caller's release of a refused message. */
  function Send(d0: Driver, msg: Msg, ok: bool): (Driver, bool) {
    var d := d0.(sent := d0.sent + {msg});
    if !d.up then (Free(d, msg, Refused), false)
    else if d.irpList == [] then Enqueue(d, msg, ok)
    else Offer(d.(irpList := d.irpList[1..]), d.irpList[0], msg, ok)
  }

  /** NotifyIrpCancelRoutine, with either Pop(buffer). */
  function TakeOut(mode: PopMode, d: Driver, irp: Irp): Driver {
    if !d.up then d
    else if irp in d.irpList then Complete(d.(irpList := Without(d.irpList, irp)), irp, Cancelled)
    else if d.irpList == [] || mode == Exact then d
    else Complete(d.(danglingNodes := d.danglingNodes + {d.irpList[|d.irpList| - 1]}), irp, Cancelled)
  }

  /** IoCancelIrp and the cancel routine it may call. */
  function Cancel(mode: PopMode, d0: Driver, irp: Irp): Driver {
    var d := d0.(cancelFlag := d0.cancelFlag + {irp});
    if irp !in d.armed then d else TakeOut(mode, d.(armed := d.armed - {irp}), irp)
  }

  // ---- a call that is not interrupted takes exactly these steps

  /** A path from s to s'. */
  ghost predicate Leads(mode: PopMode, s: State, path: seq<State>, acts: seq<Action>, s': State) {
    Path(mode, path, acts) && path[0] == s && path[|acts|] == s'
  }

  lemma More(mode: PopMode, s: State, path: seq<State>, acts: seq<Action>, c: State, a: Action, c': State)
    requires Leads(mode, s, path, acts, c) && Enabled(c, a) && c' == Do(mode, c, a)
    ensures Leads(mode, s, path + [c'], acts + [a], c')
  {
    var path', acts' := path + [c'], acts + [a];
    forall i | 0 <= i < |acts'|
      ensures Enabled(path'[i], acts'[i]) && path'[i + 1] == Do(mode, path'[i], acts'[i])
    {
      if i < |acts| { assert path'[i] == path[i] && acts'[i] == acts[i] && path'[i + 1] == path[i + 1]; }
    }
  }

  /** The state in which thread t stands at pc and the other threads as in s. */
  ghost function Here(s: State, d: Driver, t: nat, pc: Pc, lock: Option<nat>): State {
    State(d, s.threads[t := pc], lock)
  }

  /** Thread t alone takes one step. */
  lemma Alone(mode: PopMode, s: State, path: seq<State>, acts: seq<Action>, t: nat, ok: bool,
              d: Driver, pc: Pc, lock: Option<nat>, d': Driver, pc': Pc, lock': Option<nat>)
    returns (path': seq<State>, acts': seq<Action>)
    requires Leads(mode, s, path, acts, Here(s, d, t, pc, lock))
    requires !pc.Returned? && (pc.DispPend? || pc.CancelStart? ==> lock == None)
    requires var c := Do(mode, Here(s, d, t, pc, lock), Advance(t, ok));
             c == State(d', Here(s, d, t, pc, lock).threads[t := pc'], lock')
    ensures Leads(mode, s, path', acts', Here(s, d', t, pc', lock'))
  {
    var c, c' := Here(s, d, t, pc, lock), Here(s, d', t, pc', lock');
    assert c.threads[t := pc'] == c'.threads;
    More(mode, s, path, acts, c, Advance(t, ok), c');
    path', acts' := path + [c'], acts + [Advance(t, ok)];
  }

  lemma Begin(mode: PopMode, s: State, a: Action) returns (path: seq<State>, acts: seq<Action>)
    requires Enabled(s, a)
    ensures Leads(mode, s, path, acts, Do(mode, s, a))
  {
    path, acts := [s, Do(mode, s, a)], [a];
  }

  lemma DispatchDeliveryIsRun(mode: PopMode, s: State, path0: seq<State>, acts0: seq<Action>,
                              d: Driver, t: nat, irp: Irp, ok: bool)
    returns (path: seq<State>, acts: seq<Action>)
    requires s.cancelLock == None && d.up && d.dataList != [] && irp in d.submitted
    requires Leads(mode, s, path0, acts0, Here(s, d, t, DispPop(irp), None))
    ensures var (d', status) := Dispatch(d, irp, ok);
            Leads(mode, s, path, acts, Here(s, d', t, Returned(Dispatched(irp, status)), None))
  {
    var msg, rest := d.dataList[0], d.(dataList := d.dataList[1..]);
    assert d.submitted + {irp} == d.submitted;
    path, acts := Alone(mode, s, path0, acts0, t, ok, d, DispPop(irp), None, rest, DispCopy(irp, msg), None);
    var d1 := CopyOut(rest, irp, msg);
    if msg.size <= irp.outputLength {
      path, acts := Alone(mode, s, path, acts, t, ok, rest, DispCopy(irp, msg), None, d1, DispFree(irp, msg), None);
      path, acts := Alone(mode, s, path, acts, t, ok, d1, DispFree(irp, msg), None,
                    Free(d1, msg, Delivered), Returned(Dispatched(irp, Success)), None);
    } else {
      path, acts := Alone(mode, s, path, acts, t, ok, rest, DispCopy(irp, msg), None, d1, DispRepush(irp, msg), None);
      if ok {
        path, acts := Alone(mode, s, path, acts, t, ok, d1, DispRepush(irp, msg), None,
                      d1.(dataList := d1.dataList + [msg]), Returned(Dispatched(irp, BufferTooSmall)), None);
      } else {
        path, acts := Alone(mode, s, path, acts, t, ok, d1, DispRepush(irp, msg), None, d1, DispDrop(irp, msg), None);
        path, acts := Alone(mode, s, path, acts, t, ok, d1, DispDrop(irp, msg), None,
                      Free(d1, msg, Dropped), Returned(Dispatched(irp, BufferTooSmall)), None);
      }
    }
  }

  lemma PendingAbortIsRun(mode: PopMode, s: State, path0: seq<State>, acts0: seq<Action>,
                          d: Driver, t: nat, irp: Irp, ok: bool)
    returns (path: seq<State>, acts: seq<Action>)
    requires irp in d.cancelFlag
    requires Leads(mode, s, path0, acts0, Here(s, d, t, DispTest(irp), Some(t)))
    ensures Leads(mode, s, path, acts,
                  Here(s, Complete(d, irp, Cancelled), t, Returned(Dispatched(irp, Pending)), None))
  {
    path, acts := Alone(mode, s, path0, acts0, t, ok, d, DispTest(irp), Some(t), d, DispAbort(irp), Some(t));
    path, acts := Alone(mode, s, path, acts, t, ok, d, DispAbort(irp), Some(t), d, DispCancelled(irp), None);
    path, acts := Alone(mode, s, path, acts, t, ok, d, DispCancelled(irp), None,
                        Complete(d, irp, Cancelled), Returned(Dispatched(irp, Pending)), None);
  }

  lemma PendingPushIsRun(mode: PopMode, s: State, path0: seq<State>, acts0: seq<Action>, d: Driver, t: nat, irp: Irp)
    returns (path: seq<State>, acts: seq<Action>)
    requires irp !in d.cancelFlag
    requires Leads(mode, s, path0, acts0, Here(s, d, t, DispTest(irp), Some(t)))
    ensures Leads(mode, s, path, acts,
                  Here(s, d.(armed := d.armed + {irp}, irpList := d.irpList + [irp]), t,
                       Returned(Dispatched(irp, Pending)), None))
  {
    var d1 := d.(armed := d.armed + {irp});
    var d2 := d1.(irpList := d1.irpList + [irp]);
    path, acts := Alone(mode, s, path0, acts0, t, true, d, DispTest(irp), Some(t), d1, DispPush(irp), Some(t));
    path, acts := Alone(mode, s, path, acts, t, true, d1, DispPush(irp), Some(t), d2, DispUnlock(irp), Some(t));
    path, acts := Alone(mode, s, path, acts, t, true, d2, DispUnlock(irp), Some(t),
                        d2, Returned(Dispatched(irp, Pending)), None);
  }

  lemma PendingFailIsRun(mode: PopMode, s: State, path0: seq<State>, acts0: seq<Action>, d: Driver, t: nat, irp: Irp)
    returns (path: seq<State>, acts: seq<Action>)
    requires irp !in d.cancelFlag
    requires Leads(mode, s, path0, acts0, Here(s, d, t, DispTest(irp), Some(t)))
    ensures Leads(mode, s, path, acts,
                  Here(s, d.(armed := d.armed - {irp}), t, DispRelease(irp), Some(t)))
  {
    var d1 := d.(armed := d.armed + {irp});
    assert (d.armed + {irp}) - {irp} == d.armed - {irp};
    path, acts := Alone(mode, s, path0, acts0, t, false, d, DispTest(irp), Some(t), d1, DispPush(irp), Some(t));
    path, acts := Alone(mode, s, path, acts, t, false, d1, DispPush(irp), Some(t), d1, DispDisarm(irp), Some(t));
    path, acts := Alone(mode, s, path, acts, t, false, d1, DispDisarm(irp), Some(t),
                        d.(armed := d.armed - {irp}), DispRelease(irp), Some(t));
  }

  lemma NoMemoryIsRun(mode: PopMode, s: State, path0: seq<State>, acts0: seq<Action>, d: Driver, t: nat, irp: Irp)
    returns (path: seq<State>, acts: seq<Action>)
    requires Leads(mode, s, path0, acts0, Here(s, d, t, DispRelease(irp), Some(t)))
    ensures Leads(mode, s, path, acts,
                  Here(s, Complete(d, irp, NoMemory), t, Returned(Dispatched(irp, Pending)), None))
  {
    path, acts := Alone(mode, s, path0, acts0, t, false, d, DispRelease(irp), Some(t), d, DispNoMemory(irp), None);
    path, acts := Alone(mode, s, path, acts, t, false, d, DispNoMemory(irp), None,
                        Complete(d, irp, NoMemory), Returned(Dispatched(irp, Pending)), None);
  }

  lemma DispatchPendingIsRun(mode: PopMode, s: State, path0: seq<State>, acts0: seq<Action>,
                             d: Driver, t: nat, irp: Irp, ok: bool)
    returns (path: seq<State>, acts: seq<Action>)
    requires s.cancelLock == None && d.up && d.dataList == [] && irp in d.submitted
    requires Leads(mode, s, path0, acts0, Here(s, d, t, DispPop(irp), None))
    ensures var (d', status) := Dispatch(d, irp, ok);
            Leads(mode, s, path, acts, Here(s, d', t, Returned(Dispatched(irp, status)), None))
  {
    assert d.submitted + {irp} == d.submitted;
    path, acts := Alone(mode, s, path0, acts0, t, ok, d, DispPop(irp), None, d, DispPend(irp), None);
    path, acts := Alone(mode, s, path, acts, t, ok, d, DispPend(irp), None, d, DispTest(irp), Some(t));
    if irp in d.cancelFlag {
      path, acts := PendingAbortIsRun(mode, s, path, acts, d, t, irp, ok);
    } else if ok {
      path, acts := PendingPushIsRun(mode, s, path, acts, d, t, irp);
    } else {
      path, acts := PendingFailIsRun(mode, s, path, acts, d, t, irp);
      path, acts := NoMemoryIsRun(mode, s, path, acts, d.(armed := d.armed - {irp}), t, irp);
    }
  }

  /** A Dispatcher call that does not overlap others has the effect `Dispatch`. */
  lemma DispatchIsRun(mode: PopMode, s: State, t: nat, irp: Irp, ok: bool) returns (path: seq<State>, acts: seq<Action>)
    requires t !in s.threads && irp !in s.d.submitted && s.cancelLock == None
    ensures var (d', status) := Dispatch(s.d, irp, ok);
            Leads(mode, s, path, acts, Here(s, d', t, Returned(Dispatched(irp, status)), None))
  {
    var d := s.d.(submitted := s.d.submitted + {irp});
    assert Dispatch(d, irp, ok) == Dispatch(s.d, irp, ok) by { assert d.submitted + {irp} == d.submitted; }
    path, acts := Begin(mode, s, StartDispatch(t, irp));
    if !d.up {
      path, acts := Alone(mode, s, path, acts, t, ok, d, DispPop(irp), None,
                    Complete(d, irp, DeviceNotReady), Returned(Dispatched(irp, DeviceNotReady)), None);
    } else if d.dataList != [] {
      path, acts := DispatchDeliveryIsRun(mode, s, path, acts, d, t, irp, ok);
    } else {
      path, acts := DispatchPendingIsRun(mode, s, path, acts, d, t, irp, ok);
    }
  }

  lemma EvictPopIsRun(mode: PopMode, s: State, path0: seq<State>, acts0: seq<Action>, d: Driver, t: nat, msg: Msg)
    returns (path: seq<State>, acts: seq<Action>)
    requires |d.dataList| >= MAX_DATA_LIST_SIZE
    requires Leads(mode, s, path0, acts0, Here(s, d, t, SendSize(msg), None))
    ensures Leads(mode, s, path, acts,
                  Here(s, d.(dataList := d.dataList[1..]), t, SendDrop(msg, d.dataList[0]), None))
  {
    path, acts := Alone(mode, s, path0, acts0, t, true, d, SendSize(msg), None, d, SendEvict(msg), None);
    path, acts := Alone(mode, s, path, acts, t, true, d, SendEvict(msg), None,
                        d.(dataList := d.dataList[1..]), SendDrop(msg, d.dataList[0]), None);
  }

  lemma EvictIsRun(mode: PopMode, s: State, path0: seq<State>, acts0: seq<Action>, d: Driver, t: nat, msg: Msg)
    returns (path: seq<State>, acts: seq<Action>)
    requires |d.dataList| >= MAX_DATA_LIST_SIZE
    requires Leads(mode, s, path0, acts0, Here(s, d, t, SendSize(msg), None))
    ensures Leads(mode, s, path, acts,
                  Here(s, Free(d.(dataList := d.dataList[1..]), d.dataList[0], Evicted), t, SendPush(msg), None))
  {
    var oldest, rest := d.dataList[0], d.(dataList := d.dataList[1..]);
    path, acts := EvictPopIsRun(mode, s, path0, acts0, d, t, msg);
    path, acts := Alone(mode, s, path, acts, t, true, rest, SendDrop(msg, oldest), None,
                        Free(rest, oldest, Evicted), SendPush(msg), None);
  }

  lemma PushIsRun(mode: PopMode, s: State, path0: seq<State>, acts0: seq<Action>,
                  d: Driver, t: nat, msg: Msg, ok: bool)
    returns (path: seq<State>, acts: seq<Action>)
    requires Leads(mode, s, path0, acts0, Here(s, d, t, SendPush(msg), None))
    ensures Leads(mode, s, path, acts,
                  Here(s, if ok then d.(dataList := d.dataList + [msg]) else Free(d, msg, Refused), t,
                       Returned(SendReturned(msg, ok)), None))
  {
    if ok {
      path, acts := Alone(mode, s, path0, acts0, t, ok, d, SendPush(msg), None,
                          d.(dataList := d.dataList + [msg]), Returned(SendReturned(msg, true)), None);
    } else {
      path, acts := Alone(mode, s, path0, acts0, t, ok, d, SendPush(msg), None, d, SendRefuse(msg), None);
      path, acts := Alone(mode, s, path, acts, t, ok, d, SendRefuse(msg), None,
                          Free(d, msg, Refused), Returned(SendReturned(msg, false)), None);
    }
  }

  lemma EnqueueIsRun(mode: PopMode, s: State, path0: seq<State>, acts0: seq<Action>,
                     d: Driver, t: nat, msg: Msg, ok: bool)
    returns (path: seq<State>, acts: seq<Action>)
    requires Leads(mode, s, path0, acts0, Here(s, d, t, SendSize(msg), None))
    ensures var (d', accepted) := Enqueue(d, msg, ok);
            Leads(mode, s, path, acts, Here(s, d', t, Returned(SendReturned(msg, accepted)), None))
  {
    if |d.dataList| >= MAX_DATA_LIST_SIZE {
      path, acts := EvictIsRun(mode, s, path0, acts0, d, t, msg);
      path, acts := PushIsRun(mode, s, path, acts,
                              Free(d.(dataList := d.dataList[1..]), d.dataList[0], Evicted), t, msg, ok);
    } else {
      path, acts := Alone(mode, s, path0, acts0, t, ok, d, SendSize(msg), None, d, SendPush(msg), None);
      path, acts := PushIsRun(mode, s, path, acts, d, t, msg, ok);
    }
  }

  lemma SendRevokedIsRun(mode: PopMode, s: State, path0: seq<State>, acts0: seq<Action>,
                         d: Driver, t: nat, msg: Msg, irp: Irp, ok: bool)
    returns (path: seq<State>, acts: seq<Action>)
    requires irp !in d.armed
    requires Leads(mode, s, path0, acts0, Here(s, d, t, SendExchange(msg, irp), None))
    ensures var (d', accepted) := Enqueue(Complete(d.(armed := d.armed - {irp}), irp, Cancelled), msg, ok);
            Leads(mode, s, path, acts, Here(s, d', t, Returned(SendReturned(msg, accepted)), None))
  {
    var d1 := d.(armed := d.armed - {irp});
    var d2 := Complete(d1, irp, Cancelled);
    path, acts := Alone(mode, s, path0, acts0, t, ok, d, SendExchange(msg, irp), None, d1, SendCancel(msg, irp), None);
    path, acts := Alone(mode, s, path, acts, t, ok, d1, SendCancel(msg, irp), None, d2, SendSize(msg), None);
    path, acts := EnqueueIsRun(mode, s, path, acts, d2, t, msg, ok);
  }

  lemma SendTakenIsRun(mode: PopMode, s: State, path0: seq<State>, acts0: seq<Action>,
                       d: Driver, t: nat, msg: Msg, irp: Irp, ok: bool)
    returns (path: seq<State>, acts: seq<Action>)
    requires msg.size <= irp.outputLength
    requires Leads(mode, s, path0, acts0, Here(s, d, t, SendCopy(msg, irp), None))
    ensures Leads(mode, s, path, acts,
                  Here(s, Free(CopyOut(d, irp, msg), msg, Delivered), t, Returned(SendReturned(msg, true)), None))
  {
    var d2 := CopyOut(d, irp, msg);
    path, acts := Alone(mode, s, path0, acts0, t, ok, d, SendCopy(msg, irp), None, d2, SendFree(msg), None);
    path, acts := Alone(mode, s, path, acts, t, ok, d2, SendFree(msg), None,
                        Free(d2, msg, Delivered), Returned(SendReturned(msg, true)), None);
  }

  lemma SendCopyIsRun(mode: PopMode, s: State, path0: seq<State>, acts0: seq<Action>,
                      d: Driver, t: nat, msg: Msg, irp: Irp, ok: bool)
    returns (path: seq<State>, acts: seq<Action>)
    requires irp in d.armed
    requires Leads(mode, s, path0, acts0, Here(s, d, t, SendExchange(msg, irp), None))
    ensures var (d', accepted) := Offer(d, irp, msg, ok);
            Leads(mode, s, path, acts, Here(s, d', t, Returned(SendReturned(msg, accepted)), None))
  {
    var d1 := d.(armed := d.armed - {irp});
    path, acts := Alone(mode, s, path0, acts0, t, ok, d, SendExchange(msg, irp), None, d1, SendCopy(msg, irp), None);
    if msg.size <= irp.outputLength {
      path, acts := SendTakenIsRun(mode, s, path, acts, d1, t, msg, irp, ok);
    } else {
      var d2 := CopyOut(d1, irp, msg);
      path, acts := Alone(mode, s, path, acts, t, ok, d1, SendCopy(msg, irp), None, d2, SendSize(msg), None);
      path, acts := EnqueueIsRun(mode, s, path, acts, d2, t, msg, ok);
    }
  }

  /** A SendMessage call that does not overlap others has the effect `Send`. */
  lemma SendIsRun(mode: PopMode, s: State, t: nat, msg: Msg, ok: bool) returns (path: seq<State>, acts: seq<Action>)
    requires t !in s.threads && msg !in s.d.sent && s.cancelLock == None
    ensures var (d', accepted) := Send(s.d, msg, ok);
            Leads(mode, s, path, acts, Here(s, d', t, Returned(SendReturned(msg, accepted)), None))
  {
    var d := s.d.(sent := s.d.sent + {msg});
    path, acts := Begin(mode, s, StartSend(t, msg));
    if !d.up {
      path, acts := Alone(mode, s, path, acts, t, ok, d, SendPop(msg), None, d, SendRefuse(msg), None);
      path, acts := Alone(mode, s, path, acts, t, ok, d, SendRefuse(msg), None,
                          Free(d, msg, Refused), Returned(SendReturned(msg, false)), None);
    } else if d.irpList == [] {
      path, acts := Alone(mode, s, path, acts, t, ok, d, SendPop(msg), None, d, SendSize(msg), None);
      path, acts := EnqueueIsRun(mode, s, path, acts, d, t, msg, ok);
    } else {
      var irp, rest := d.irpList[0], d.(irpList := d.irpList[1..]);
      path, acts := Alone(mode, s, path, acts, t, ok, d, SendPop(msg), None, rest, SendExchange(msg, irp), None);
      if irp !in d.armed {
        path, acts := SendRevokedIsRun(mode, s, path, acts, rest, t, msg, irp, ok);
      } else {
        path, acts := SendCopyIsRun(mode, s, path, acts, rest, t, msg, irp, ok);
      }
    }
  }

  lemma CancelPopIsRun(mode: PopMode, s: State, path0: seq<State>, acts0: seq<Action>, d: Driver, t: nat, irp: Irp)
    returns (path: seq<State>, acts: seq<Action>)
    requires Leads(mode, s, path0, acts0, Here(s, d, t, CancelPop(irp), None))
    ensures Leads(mode, s, path, acts, Here(s, TakeOut(mode, d, irp), t, Returned(CancelReturned), None))
  {
    var end := Returned(CancelReturned);
    if !d.up || (irp !in d.irpList && (d.irpList == [] || mode == Exact)) {
      path, acts := Alone(mode, s, path0, acts0, t, true, d, CancelPop(irp), None, d, end, None);
    } else {
      var d1 := if irp in d.irpList then d.(irpList := Without(d.irpList, irp))
                else d.(danglingNodes := d.danglingNodes + {d.irpList[|d.irpList| - 1]});
      path, acts := Alone(mode, s, path0, acts0, t, true, d, CancelPop(irp), None, d1, CancelComplete(irp), None);
      path, acts := Alone(mode, s, path, acts, t, true, d1, CancelComplete(irp), None,
                          Complete(d1, irp, Cancelled), end, None);
    }
  }

  lemma CancelMarkIsRun(mode: PopMode, s: State, t: nat, irp: Irp) returns (path: seq<State>, acts: seq<Action>)
    requires t !in s.threads && irp in s.d.submitted && s.cancelLock == None
    ensures Leads(mode, s, path, acts,
                  Here(s, s.d.(cancelFlag := s.d.cancelFlag + {irp}), t, CancelExchange(irp), Some(t)))
  {
    var d := s.d.(cancelFlag := s.d.cancelFlag + {irp});
    path, acts := Begin(mode, s, StartCancel(t, irp));
    path, acts := Alone(mode, s, path, acts, t, true, s.d, CancelStart(irp), None, s.d, CancelMark(irp), Some(t));
    path, acts := Alone(mode, s, path, acts, t, true, s.d, CancelMark(irp), Some(t), d, CancelExchange(irp), Some(t));
  }

  lemma CancelArmedIsRun(mode: PopMode, s: State, path0: seq<State>, acts0: seq<Action>, d: Driver, t: nat, irp: Irp)
    returns (path: seq<State>, acts: seq<Action>)
    requires irp in d.armed
    requires Leads(mode, s, path0, acts0, Here(s, d, t, CancelExchange(irp), Some(t)))
    ensures Leads(mode, s, path, acts, Here(s, d.(armed := d.armed - {irp}), t, CancelPop(irp), None))
  {
    var d1 := d.(armed := d.armed - {irp});
    path, acts := Alone(mode, s, path0, acts0, t, true, d, CancelExchange(irp), Some(t),
                        d1, CancelRelease(irp), Some(t));
    path, acts := Alone(mode, s, path, acts, t, true, d1, CancelRelease(irp), Some(t), d1, CancelPop(irp), None);
  }

  lemma CancelBareIsRun(mode: PopMode, s: State, path0: seq<State>, acts0: seq<Action>, d: Driver, t: nat, irp: Irp)
    returns (path: seq<State>, acts: seq<Action>)
    requires irp !in d.armed
    requires Leads(mode, s, path0, acts0, Here(s, d, t, CancelExchange(irp), Some(t)))
    ensures Leads(mode, s, path, acts, Here(s, d, t, Returned(CancelReturned), None))
  {
    assert d.(armed := d.armed - {irp}) == d;
    path, acts := Alone(mode, s, path0, acts0, t, true, d, CancelExchange(irp), Some(t), d, CancelGiveUp(irp), Some(t));
    path, acts := Alone(mode, s, path, acts, t, true, d, CancelGiveUp(irp), Some(t), d, Returned(CancelReturned), None);
  }

  /** A cancel that does not overlap other calls has the effect `Cancel`. */
  lemma CancelIsRun(mode: PopMode, s: State, t: nat, irp: Irp) returns (path: seq<State>, acts: seq<Action>)
    requires t !in s.threads && irp in s.d.submitted && s.cancelLock == None
    ensures Leads(mode, s, path, acts, Here(s, Cancel(mode, s.d, irp), t, Returned(CancelReturned), None))
  {
    var d := s.d.(cancelFlag := s.d.cancelFlag + {irp});
    path, acts := CancelMarkIsRun(mode, s, t, irp);
    if irp !in d.armed {
      path, acts := CancelBareIsRun(mode, s, path, acts, d, t, irp);
    } else {
      path, acts := CancelArmedIsRun(mode, s, path, acts, d, t, irp);
      path, acts := CancelPopIsRun(mode, s, path, acts, d.(armed := d.armed - {irp}), t, irp);
    }
  }
}
